/**
 * What the two plugins are given: which subtitle family they handle (`Kind`),
 * the user's settings, and the probe's description of a media file.
 */
module Media {
  import opened Strings

  /** How the worker names the temporary file that receives the tagged copy. */
  datatype TempRule =
    | InCacheDirectory   // join(dirname(file_out), "<stem>_temp.mkv")
    | ReplaceMkvSuffix   // abspath.replace(".mkv", "_temp.mkv")

  /**
   * The constants that tell the ASS/SSA plugin from the SRT plugin; the rest
   * of the model is written once for both.
   */
  datatype Kind = Kind(
    codecs: seq<string>,   // codec names the plugin extracts (compared lower-cased)
    tagKey: string,        // key of the container-level "extracted" marker
    extension: string,     // extension of the sidecar files
    sectionKey: string,    // section of the `.unmanic` record store
    mkvOnly: bool,         // a file whose extension is not `mkv` counts as done
    tempRule: TempRule)

  const AssKind: Kind :=
    Kind(["ass", "ssa"], "ASS_SUB", "ass", "extract_ass_subtitles_to_files", true, InCacheDirectory)

  const SrtKind: Kind :=
    Kind(["srt", "mov_txt", "subrip"], "srt_SUB", "srt", "extract_srt_subtitles_to_files", false, ReplaceMkvSuffix)

  /** The plugin's two settings: `languages_to_extract` and `extract_regardless`. */
  datatype Settings = Settings(languagesToExtract: string, extractRegardless: bool)

  /**
   * One entry of the probe's `streams` list. A key the probe did not report
   * reads as the empty string, as `dict.get(key, '')` gives it.
   */
  datatype StreamInfo = StreamInfo(codecType: string, codecName: string, tags: map<string, string>)

  /** The probe of a file: not a video file, or its format tags and streams. */
  datatype Probe =
    | NotVideo
    | Video(formatTags: map<string, string>, streams: seq<StreamInfo>)

  /** `m.get(k, d)`. */
  function Get(m: map<string, string>, k: string, d: string): string {
    if k in m then m[k] else d
  }

  /** `stream.get('codec_name', '').lower() in <the kind's codecs>`. */
  predicate IsTargetCodec(kind: Kind, stream: StreamInfo) {
    Lower(stream.codecName) in kind.codecs
  }

  /** `stream.get('tags', {}).get('language', '').lower()`. */
  function LanguageTag(stream: StreamInfo): (tag: string)
    ensures IsLower(tag)
  {
    Lower(Get(stream.tags, "language", ""))
  }
}
