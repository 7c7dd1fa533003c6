/**
 * `ass_already_extracted` / `srt_already_extracted`: has this file already
 * been handled? Its file-system and probe reads are inputs here: the
 * directory's `.unmanic` record store, the probe result, and the paths that
 * exist (from which the `{base}.*.{ext}` glob picks the sidecar files).
 */
module Oracle {
  import opened Strings
  import opened Paths
  import opened Media

  /** The `.unmanic` record store of the file's directory. */
  datatype DirectoryInfo =
    | NoRecordFile                                     // no `.unmanic` file in the directory
    | Unreadable                                       // reading the record raised
    | Records(values: map<(string, string), bool>)     // (section, file name) -> truthiness of the value

  /** The store holds a truthy record for this kind and this file's base name. */
  predicate RecordSaysExtracted(kind: Kind, info: DirectoryInfo, path: string) {
    var key := (kind.sectionKey, Basename(path));
    info.Records? && key in info.values && info.values[key]
  }

  /**
   * `s` holds none of the glob metacharacters `[`, `*` and `?`, so as part of
   * a glob pattern it matches only itself.
   */
  predicate NoGlobMagic(s: string) {
    '[' !in s && '*' !in s && '?' !in s
  }

  /**
   * `name` matches the glob pattern `{base}.*.{ext}`, reading `base` and
   * `ext` literally (exact when both satisfy `NoGlobMagic`): it is `base`, a
   * dot, a run of characters without `/`, a dot and `ext`.
   */
  function MatchesSidecarPattern(base: string, ext: string, name: string): (b: bool)
    ensures b ==> |base| + |ext| + 2 <= |name|
                  && var star := name[|base| + 1..|name| - |ext| - 1];
                     '/' !in star && name == base + "." + star + "." + ext
  {
    if |base| + 1 <= |name| - |ext| - 1
       && StartsWith(name, base + ".")
       && EndsWith(name, "." + ext)
       && '/' !in name[|base| + 1..|name| - |ext| - 1]
    then
      var star := name[|base| + 1..|name| - |ext| - 1];
      assert name == name[..|base| + 1] + star + name[|name| - |ext| - 1..];
      true
    else
      false
  }

  /** Conversely, every `{base}.{star}.{ext}` with no `/` in `star` matches. */
  lemma SidecarPatternMatches(base: string, star: string, ext: string)
    requires '/' !in star
    ensures MatchesSidecarPattern(base, ext, base + "." + star + "." + ext)
  {
    var name := base + "." + star + "." + ext;
    assert name[..|base| + 1] == base + ".";
    assert name[|name| - |ext| - 1..] == "." + ext;
    assert name[|base| + 1..|name| - |ext| - 1] == star;
  }

  /** `glob.glob(f"{base}.*.{ext}")` is non-empty, given the paths that exist. */
  predicate SidecarsExist(base: string, ext: string, existing: seq<string>) {
    exists k :: 0 <= k < |existing| && MatchesSidecarPattern(base, ext, existing[k])
  }

  /** Some probed stream of type `subtitle` has one of the kind's codecs. */
  predicate HasTargetSubtitles(kind: Kind, streams: seq<StreamInfo>) {
    exists k :: 0 <= k < |streams| && streams[k].codecType == "subtitle" && IsTargetCodec(kind, streams[k])
  }

  /** The loop that sets `has_target_subtitles`, stopping at the first hit. */
  method ScanForTargetSubtitles(kind: Kind, streams: seq<StreamInfo>) returns (found: bool)
    ensures found == HasTargetSubtitles(kind, streams)
  {
    found := false;
    var i := 0;
    while i < |streams|
      invariant 0 <= i <= |streams|
      invariant !found
      invariant forall k :: 0 <= k < i ==> !(streams[k].codecType == "subtitle" && IsTargetCodec(kind, streams[k]))
    {
      var stream := streams[i];
      if stream.codecType == "subtitle" {
        var codecName := Lower(stream.codecName);
        if codecName in kind.codecs {
          found := true;
          break;
        }
      }
      i := i + 1;
    }
  }

  /** The value of the marker tag that says the subtitles have been extracted. */
  const ExtractedMarker: string := "extracted"

  /** The kind-specific marker tag of the container, lower-cased (`''` when absent). */
  function SubsTag(kind: Kind, probe: Probe): string
    requires probe.Video?
  {
    Lower(Get(probe.formatTags, kind.tagKey, ""))
  }

  /** The ASS plugin only handles `.mkv` files (or files without an extension). */
  predicate ContainerAccepted(kind: Kind, path: string) {
    !kind.mkvOnly || Extension(path) == "" || Extension(path) == "mkv"
  }

  /**
   * The decision, first match wins: a truthy `.unmanic` record; a failed
   * probe (not done); a container the plugin does not handle (done);
   * `extract_regardless` (not done); sidecar files exist (done, whatever the
   * tag); no sidecar files, no `extracted` tag and a target stream (not
   * done); otherwise done.
   */
  function AlreadyExtracted(kind: Kind, settings: Settings, path: string, info: DirectoryInfo,
                            probe: Probe, existing: seq<string>): (done: bool)
    ensures RecordSaysExtracted(kind, info, path) ==> done
    ensures !RecordSaysExtracted(kind, info, path) && probe.NotVideo? ==> !done
    ensures !RecordSaysExtracted(kind, info, path) && probe.Video? && !ContainerAccepted(kind, path) ==> done
    ensures (!RecordSaysExtracted(kind, info, path) && probe.Video? && ContainerAccepted(kind, path)
             && settings.extractRegardless) ==> !done
    ensures (!RecordSaysExtracted(kind, info, path) && probe.Video? && ContainerAccepted(kind, path)
             && !settings.extractRegardless) ==>
              (!done <==> !SidecarsExist(SplitExt(path).0, kind.extension, existing)
                          && SubsTag(kind, probe) != ExtractedMarker
                          && HasTargetSubtitles(kind, probe.streams))
  {
    if RecordSaysExtracted(kind, info, path) then true
    else if probe.NotVideo? then false
    else
      var subsTag := SubsTag(kind, probe);
      var hasTargetSubtitles := HasTargetSubtitles(kind, probe.streams);
      var basePath := SplitExt(path).0;
      var fileExtension := Extension(path);
      var existingFiles := SidecarsExist(basePath, kind.extension, existing);
      if kind.mkvOnly && fileExtension != "" && fileExtension != "mkv" then true
      else if settings.extractRegardless then false
      else if subsTag == ExtractedMarker && existingFiles then true
      else if existingFiles then true
      else if !existingFiles && subsTag != ExtractedMarker && hasTargetSubtitles then false
      else true
  }
}
