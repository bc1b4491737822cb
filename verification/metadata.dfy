/** The video metadata the extraction engine returns, as far as the application reads it. */
module Metadata {
  import opened Wrappers

  /**
   * One entry of the metadata's `formats` list. A key the engine left out is `None`;
   * `format_id` is always present.
   */
  datatype Format = Format(
    height: Option<int>,
    vcodec: Option<string>,
    acodec: Option<string>,
    ext: Option<string>,
    formatId: string)

  /**
   * The metadata of one video. `duration` is `None` when it is absent or not a number;
   * `formats` is `None` when the key is absent.
   */
  datatype VideoInfo = VideoInfo(
    title: Option<string>,
    duration: Option<int>,
    formats: Option<seq<Format>>)
}
