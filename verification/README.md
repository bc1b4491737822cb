# TubeSpire core, modelled in Dafny

TubeSpire is a small Flask web application. It asks the yt-dlp extraction engine for a
video's metadata and offers the user a short catalog of download qualities. It then
builds the engine options that download and convert the chosen quality into a named
file in the download folder. This project models the pure business logic of `app.py`
and proves what that logic promises:

- **The format catalog** (`Catalog`). `process_video_formats` makes one pass over the
  engine's format records, keeping a set of heights already emitted, and then sorts the
  options by descending height. The model proves this equals an independent reference
  definition: for each target height, highest first, the option built from the *first*
  video-only MP4 record at that height. It also proves the consequences: the catalog is
  strictly ordered, has no duplicate heights, and holds exactly the chosen options; a
  record that matches nothing is ignored, and the first record at a height wins.
  `get_audio_formats` is the fixed pair of bitrates, 320 then 192.
- **File-name sanitizing** (`Sanitize`). `sanitize_filename` keeps letters, digits and
  `" ._-"`, then strips trailing whitespace. The result uses only allowed characters,
  is a subsequence of the title, keeps every allowed character except trailing spaces,
  and is idempotent.
- **Duration formatting** (`Duration`). `format_duration` writes `HH:MM:SS` from one hour
  up and `MM:SS` below it, with Python's floor `//` and `%`. The clock string reads back
  to the duration (modulo one hour below one hour, negative durations included). The
  reader accepts only well-formed clock strings, and no other one reads back to the same
  value, so the round trip fixes every character printed.
- **Engine options** (`DownloadOptions`, `Download`). The base options are
  `get_base_ydl_opts`. The proxy URL, which the application reads from the process
  environment at start-up (app.py:49), and the fixed download folder `"downloads"`
  (app.py:47), which `build_download_options` uses, are passed in as an `AppConfig`.
  The metadata-fetch
  options come next, then `build_download_options` with its two error cases. The output
  path strings that result are kept apart: two downloads get the same path string only
  when they have the same sanitized title, the same type and the same quality. This is
  about strings, not files: the selection is not validated, so a crafted selection such
  as one holding `/..` can name the same file through a different string.

Python dictionaries with optional keys are datatypes with `Option` fields (`None` = key
absent). The two `ValueError`s that `build_download_options` raises (app.py:212, 223) are
`Failure` values of a `Result`. Strings are
`seq<char>`.

The model follows the code's exact tests. One case: a proxy is used only when the
configured URL is *truthy*, so an empty URL means no proxy (`ProxyConfigured`). Another:
an absent `vcodec` counts as a video stream, because `None != "none"`.

## Model

| member | source | states |
|---|---|---|
| `Catalog.ProcessVideoFormats` | app.py:135-161 | The catalog equals the reference catalog (first video-only MP4 record per target height, highest first). It is strictly ordered by height. An option is in it exactly when it is the chosen option at a target height. Each option carries `"{h}p ({label})"` and the note "MP4". A video without a formats list gets an empty catalog. |
| `Catalog.Emitted` | app.py:142-158 | The one pass emits only options at target heights not already seen, at most one per record. Its full specification is `Catalog.EmittedMembers` and `Catalog.EmittedDistinct`. |
| `Catalog.DisplayResolution` | app.py:150-151 | A target height shows as `"{h}p ({label})"` with its label; a height without a label shows as `"{h}p"`. `Catalog.ChosenShape` states that every offered option carries the labelled form. |
| `Catalog.FirstMatchIndex` | app.py:142-149 | The reference's choice for a height: the index of a video-only MP4 record of that height with no earlier such record, or none when no record matches. |
| `Catalog.SortByHeight` | app.py:160 | The sort is a permutation of its input, ordered highest first, and strictly ordered when the heights are distinct. |
| `Catalog.InsertPermutes` | app.py:160 | One insertion step adds exactly the inserted option to the multiset of options. |
| `Catalog.InsertKeepsOrder` | app.py:160 | Inserting into a list ordered highest first keeps it ordered. |
| `Catalog.InsertKeepsStrictOrder` | app.py:160 | Inserting an option of a new height into a strictly ordered list keeps it strictly ordered. |
| `Catalog.EmittedMembers` | app.py:142-158 | The one pass emits an option exactly when it is the chosen option at a target height not already seen. |
| `Catalog.EmittedDistinct` | app.py:138-158 | The one pass never emits two options of one height, nor one of a height already in the seen set. |
| `Catalog.OptionsAtMembers` | app.py:139-158 | The reference holds exactly the chosen options at the listed heights. |
| `Catalog.OptionsAtOrdered` | app.py:139-160 | Listing the heights in descending order lists the reference strictly highest first. |
| `Catalog.ExpectedMembers` | app.py:139-160 | The reference catalog is strictly ordered and holds exactly the chosen options. |
| `Catalog.CatalogMatchesReference` | app.py:142-161 | The one pass followed by the sort computes the reference catalog. |
| `Catalog.ChosenShape` | app.py:150-157 | Every chosen option is at a target height, shows the height and its label, and is noted "MP4". |
| `Catalog.NonMatchingRecordIgnored` | app.py:143-149 | A record that is no video-only MP4 stream at any target height leaves the catalog unchanged, wherever it is inserted among the other records. |
| `Catalog.FirstMatchSkip` | app.py:143-149 | Inserting a record that does not match at a height, at any position, keeps the record chosen at that height. |
| `Catalog.LaterRecordIgnored` | app.py:143-158 | A record appended at a height that already has a match leaves the catalog unchanged (first seen wins). |
| `Catalog.FirstRecordWins` | app.py:142-158 | A video-only MP4 record at a target height, placed first, is the one offered for that height. |
| `Catalog.AudioFormats` | app.py:164-169 | Exactly two audio options, with bitrates "320" and then "192". Each quality text starts with `"{bitrate} kbps"`. The first bitrate is numerically higher than the second. |
| `Text.IntToString` | app.py:151 | Python's `str` of an integer: a numeral reading back as the value, with a leading `-` for negatives and no leading zero. |
| `Text.DigitsValueInjective` | app.py:184 | Two digit strings of one length with the same value are equal. |
| `Text.Pad2` | app.py:184 | The `:02d` format: a numeral of at least two digits reading back as the value, exactly two digits below 100, and no leading zero when longer. |
| `Text.SplitFirst` | app.py:211-213 | `split("_", 1)`: none exactly when the separator is absent; otherwise head, separator and tail rebuild the input and the head holds no separator. |
| `Text.SplitFirstOfJoin` | app.py:213 | Splitting `a + c + b`, where `a` holds no `c`, gives back `a` and `b`. |
| `Sanitize.KeepAllowed` | app.py:174 | The filter keeps only allowed characters and yields a subsequence of its input. |
| `Sanitize.KeepAllowedCounts` | app.py:174 | Every allowed character occurs in the filter's output as often as in its input; every other character occurs zero times. |
| `Sanitize.KeepAllowedAppend` | app.py:174 | The filter distributes over concatenation. |
| `Sanitize.KeepAllowedOfAllowed` | app.py:174 | A string made only of allowed characters passes the filter unchanged. |
| `Sanitize.KeepAllowedOfDisallowed` | app.py:174 | A string with no allowed character is removed entirely. |
| `Sanitize.TrimEnd` | app.py:174 | `rstrip()`: the result is a prefix of its input, everything dropped is whitespace, and the result does not end in whitespace. |
| `Sanitize.SanitizeFilename` | app.py:172-174 | The result uses only allowed characters and is a subsequence of the title. It does not end in a space. It is a prefix of the filtered title, and only spaces of the filtered title are cut off. |
| `Sanitize.SanitizeIdempotent` | app.py:172-174 | Sanitizing a sanitized title changes nothing. |
| `Sanitize.SanitizedHasNoBracket` | app.py:172-174 | A sanitized title holds no `[`. |
| `Sanitize.DisallowedDropped` | app.py:172-174 | Disallowed characters between allowed ones are dropped, not replaced. |
| `Sanitize.SanitizeExample` | app.py:172-174 | `"My Video! Title.mp4"` sanitizes to `"My Video Title.mp4"`. |
| `Sanitize.SanitizeEmpty` | app.py:172-174 | The empty title sanitizes to the empty string. |
| `Duration.Decompose` | app.py:183 | Hours, minutes and seconds recompose to the input, with minutes and seconds in 0..59, for negative inputs too. |
| `Duration.FormatDuration` | app.py:177-186 | A non-number gives exactly "N/A". A number gives only digits and colons, and the hour group is missing exactly when the duration is under one hour. |
| `Duration.FormatDurationRoundTrip` | app.py:182-184 | Reading the clock string back gives the duration from one hour up, and the duration modulo 3600 below one hour. |
| `Duration.ClockShape` | app.py:184 | An accepted clock string reads as a non-negative value, and has no hour group exactly when the value is under one hour. |
| `Duration.ParseClockInjective` | app.py:184 | Two accepted clock strings that read back to the same value are the same string. |
| `Duration.FormatDurationCanonical` | app.py:182-184 | Any accepted clock string that reads back to the value of the printed one is the printed one. With the round trip, this fixes every character `format_duration` prints, zero padding included. |
| `Duration.ParseClockRejectsOverflow` | app.py:184 | `"00:61"` is not accepted: seconds past 59 are never printed. |
| `Duration.FormatDurationExamples` | app.py:177-186 | 3661 gives "01:01:01", 59 gives "00:59", -1 gives "59:59", and a non-number gives "N/A". |
| `DownloadOptions.BaseOptions` | app.py:101-119 | Quiet, no playlists, errors ignored, no certificate check, and the fixed browser headers. The proxy is set exactly when a non-empty proxy URL is configured, and to that URL. No download-specific key is set. |
| `DownloadOptions.MetadataOptions` | app.py:122-125 | The base settings, plus a request for the metadata as one JSON record, and nothing else. |
| `DownloadOptions.JoinPath` | app.py:203-206 | `os.path.join` of two parts: an absolute name replaces the folder; otherwise the name follows the folder, with one `/` inserted when the folder is non-empty and does not already end in `/`. |
| `DownloadOptions.BuildDownloadOptions` | app.py:189-223 | Fails exactly for an unknown type (`InvalidDownloadType`) or a video selection without `_` (`InvalidVideoSelection`). Otherwise it keeps the base settings. Audio: best audio, an mp3 conversion at the selected quality, and the name `"{title} [{selection}kbps].%(ext)s"`. Video: split at the first `_` into format id and height; the merged-format selector, the name `"{title} [{height}p].%(ext)s"` and an mp4 merge. |
| `DownloadOptions.VideoSelectionRoundTrip` | app.py:210-221 | A selection composed as `"{format_id}_{height}"` from an id without `_` is split back into that id and height. |
| `DownloadOptions.BracketedNameInjective` | app.py:203-218 | Output names built from titles without `[` agree only when their titles and bracketed parts agree. |
| `DownloadOptions.AudioAndVideoNamesDiffer` | app.py:203-218 | An audio output name never equals a video output name. |
| `DownloadOptions.JoinPathInjective` | app.py:203-218 | Joining relative names onto one folder: equal paths mean equal names. |
| `DownloadOptions.DefaultFolderPath` | app.py:47 | With the configured `downloads` folder, a relative output name is saved as `"downloads/" + name`, whatever the proxy setting. |
| `Download.SafeTitle` | app.py:271 | The title a download is saved under is the sanitized metadata title, and exactly "video" when the metadata has no title. It uses only allowed characters and is a subsequence of its source. |
| `Download.DownloadRequestOptions` | app.py:271-272 | A download request fails exactly for an unknown type or a video selection without `_`, whatever the title. On success it keeps the base settings, and the output path is the download folder joined with the name built from the sanitized title: `"{title} [{selection}kbps].%(ext)s"` for audio, `"{title} [{height}p].%(ext)s"` for video, where the height is the selection after its first `_`. |
| `Download.VideoOutputPath` | app.py:210-218 | A video download's output path names the part of the selection after its first `_`. |
| `Download.OutputNameIsRelative` | app.py:203-218 | An output name built from a sanitized title is non-empty and does not start with `/`, so it is joined onto the folder. |
| `Download.VideoPathInjective` | app.py:216-218 | In one folder, a video output path determines the sanitized title and the height. |
| `Download.AudioPathInjective` | app.py:203-206 | In one folder, an audio output path determines the sanitized title and the bitrate. |
| `Download.VideoPathsCollideOnlyWhenSame` | app.py:271-272 | Two video downloads share an output path exactly when their sanitized titles and heights are equal. |
| `Download.AudioPathsCollideOnlyWhenSame` | app.py:271-272 | Two audio downloads share an output path exactly when their sanitized titles and bitrates are equal. |
| `Download.AudioAndVideoPathsDiffer` | app.py:271-272 | An audio download and a video download never share an output path. |
| `Download.VideoChoiceDownloads` | app.py:152-157 | An offered video option, sent back as `"{format_id}_{height}"` with an id holding no `_`, is accepted, selects that format and names that height. |
| `Download.AudioChoiceDownloads` | app.py:164-169 | An offered audio option is accepted and converts at its own bitrate under its own name. |

## Left out

- The Flask routes, templates, flash messages, cookies and the security headers are web plumbing and are not modelled. So are logging, `load_dotenv` and the start-up `os.makedirs` (app.py:40-72).
- `fetch_video_info` and the download itself call the extraction engine over the network. Only the options handed to the engine are modelled (`MetadataOptions`, `BuildDownloadOptions`). The metadata is a parameter (`VideoInfo`).
- The process environment (`PROXY_URL`) and the configured `DOWNLOAD_FOLDER` are the explicit `AppConfig` parameter.
- The download route's checks for empty form fields and a failed metadata fetch come before the modelled part. They are not modelled.
- `Duration.FormatDuration`: floats and `int()` truncation are not modelled. Neither is `bool` counting as an integer in Python. The argument is `Option<int>`, and `None` stands for every non-number.
- `Catalog.ProcessVideoFormats`: heights are integers. A float height such as `1080.0`, which Python treats as equal to `1080`, is not modelled.
- `Catalog.ProcessVideoFormats`: every format record is assumed to have a `format_id`. The `KeyError` the source raises for a matching record without one is not modelled.
- `Sanitize.SanitizeFilename`: `str.isalnum` and `str.isspace` are modelled on ASCII only. Non-ASCII letters and digits, which Python keeps, are dropped by the model.
- `Download.SafeTitle`: a title key present with a non-string value (or `None`) is not modelled; the title is `Option<string>`, and `None` stands for an absent key.
- `Catalog.ProcessVideoFormats`: a `formats` key present with the value `None` is not modelled. In the source, `video_info.get("formats", [])` then returns `None`, and the loop at app.py:142 raises a `TypeError` that the index route (app.py:246-252) does not catch. The model has `formats: Option<seq<Format>>`, and `None` stands only for an absent key, which gives an empty catalog.
- `Download.VideoChoiceDownloads`: the HTML template that composes the selection token `"{format_id}_{height}"` is not part of this model. The round trip is stated only for format ids without `_`. An id containing `_` would be split at its own underscore.
- `Duration.ParseClock` is a reading-back function written only to state the round trip. It has no counterpart in the application. It accepts exactly the shapes `format_duration` can print: minutes and seconds as two digits below 60, and a positive hour field zero-filled to width two.
