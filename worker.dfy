/**
 * The two host hooks: `on_library_management_file_test` (queue the file or
 * not) and `on_worker_process` (build the extraction command, run it, then tag
 * the container and put the tagged copy in place). Running a command, making
 * a directory and replacing a file are effects recorded in order; whether
 * each succeeded is an input.
 */
module Worker {
  import opened Wrappers
  import opened Strings
  import opened Paths
  import opened Media
  import opened StreamMapping
  import opened Oracle

  // ---------------------------------------------------------------------
  // Output names
  // ---------------------------------------------------------------------

  /** `get_unique_{ass,srt}_filename`: `{base}.unmanic.{tag}.{index}.{ext}`. */
  function UniqueFilename(base: string, tag: string, streamIndex: nat, ext: string): (name: string)
    ensures StartsWith(name, base + ".unmanic.") && EndsWith(name, "." + ext)
  {
    base + ".unmanic." + tag + "." + NatToString(streamIndex) + "." + ext
  }

  /**
   * Two outputs of one file collide only for the same tag and stream index:
   * the index is the last dot-separated field and has no dot in it, so the
   * tag may itself contain dots.
   */
  lemma UniqueFilenameInjective(base: string, ext: string, tag1: string, index1: nat, tag2: string, index2: nat)
    requires UniqueFilename(base, tag1, index1, ext) == UniqueFilename(base, tag2, index2, ext)
    ensures tag1 == tag2 && index1 == index2
  {
    var d1, d2 := NatToString(index1), NatToString(index2);
    var prefix, suffix := base + ".unmanic.", "." + ext;
    var mid1, mid2 := tag1 + "." + d1, tag2 + "." + d2;
    var name := UniqueFilename(base, tag1, index1, ext);
    assert name == prefix + mid1 + suffix;
    assert name == prefix + mid2 + suffix;
    assert mid1 == name[|prefix|..|name| - |suffix|];
    assert mid2 == name[|prefix|..|name| - |suffix|];
    LastFieldIsDigits(tag1, d1, tag2, d2);
    NatToStringInjective(index1, index2);
  }

  /** `tag + "." + digits` splits in one way only: at the last dot. */
  lemma LastFieldIsDigits(tag1: string, d1: string, tag2: string, d2: string)
    requires AllDigits(d1) && AllDigits(d2)
    requires tag1 + "." + d1 == tag2 + "." + d2
    ensures tag1 == tag2 && d1 == d2
  {
    var m := tag1 + "." + d1;
    var n := |m|;
    assert forall k :: |tag1| < k < n ==> m[k] == d1[k - |tag1| - 1] != '.';
    assert forall k :: |tag2| < k < n ==> m[k] == d2[k - |tag2| - 1] != '.';
    assert m[|tag1|] == '.' && m[|tag2|] == '.';
    assert |tag1| == |tag2|;
    assert d1 == m[n - |d1|..] == d2;
    assert tag1 == m[..n - |d1| - 1] == tag2;
  }

  /**
   * An output name whose tag has no `/` is found again by the `{base}.*.{ext}`
   * glob, provided `base` holds no glob metacharacter (otherwise the glob
   * reads it as a pattern and may miss the file).
   */
  lemma UniqueFilenameMatchesSidecarPattern(base: string, tag: string, streamIndex: nat, ext: string)
    requires NoGlobMagic(base) && '/' !in tag
    ensures MatchesSidecarPattern(base, ext, UniqueFilename(base, tag, streamIndex, ext))
  {
    var d := NatToString(streamIndex);
    var star := "unmanic." + tag + "." + d;
    assert UniqueFilename(base, tag, streamIndex, ext) == base + "." + star + "." + ext;
    assert forall i :: 0 <= i < |d| ==> d[i] != '/';
    assert forall i :: 0 <= i < |star| ==> star[i] != '/' by {
      forall i | 0 <= i < |star| ensures star[i] != '/' {
        if 8 <= i < 8 + |tag| {
          assert star[i] == tag[i - 8];
        } else if i > 8 + |tag| {
          assert star[i] == d[i - 9 - |tag|];
        }
      }
    }
    SidecarPatternMatches(base, star, ext);
  }

  // ---------------------------------------------------------------------
  // The extraction command
  // ---------------------------------------------------------------------

  /** What the loop over `sub_streams` adds for one entry: its map pair, `-y`, its output name. */
  function EntryArgs(entry: SubStream, base: string, ext: string): seq<string> {
    entry.streamMapping + ["-y", UniqueFilename(base, entry.subtitleTag, entry.streamId, ext)]
  }

  /** What the loop over `sub_streams` adds in all, entry by entry in order. */
  function OutputArgs(entries: seq<SubStream>, base: string, ext: string): seq<string>
    decreases |entries|
  {
    if |entries| == 0 then []
    else OutputArgs(entries[..|entries| - 1], base, ext) + EntryArgs(entries[|entries| - 1], base, ext)
  }

  /**
   * `args` holds exactly four arguments per entry, in order: `-map`,
   * `0:s:{id}?`, `-y` and the entry's output name.
   */
  predicate FourArgsPerEntry(args: seq<string>, entries: seq<SubStream>, base: string, ext: string) {
    |args| == 4 * |entries|
    && forall k :: 0 <= k < |entries| ==>
         args[4 * k..4 * k + 4]
           == MapArgs(entries[k].streamId) + ["-y", UniqueFilename(base, entries[k].subtitleTag, entries[k].streamId, ext)]
  }

  /** What the loop adds for well-formed entries is laid out four arguments per entry. */
  lemma {:induction false} OutputArgsLayout(entries: seq<SubStream>, base: string, ext: string)
    requires WellFormedEntries(entries)
    ensures FourArgsPerEntry(OutputArgs(entries, base, ext), entries, base, ext)
    decreases |entries|
  {
    if |entries| > 0 {
      var init := entries[..|entries| - 1];
      OutputArgsLayout(init, base, ext);
      var prev := OutputArgs(init, base, ext);
      var all := OutputArgs(entries, base, ext);
      var last := EntryArgs(entries[|entries| - 1], base, ext);
      assert all == prev + last;
      forall k | 0 <= k < |entries|
        ensures all[4 * k..4 * k + 4]
                == MapArgs(entries[k].streamId)
                   + ["-y", UniqueFilename(base, entries[k].subtitleTag, entries[k].streamId, ext)]
      {
        if k < |entries| - 1 {
          assert all[4 * k..4 * k + 4] == prev[4 * k..4 * k + 4];
          assert init[k] == entries[k];
        } else {
          assert all[4 * k..4 * k + 4] == last;
        }
      }
    }
  }

  /** The loop over `sub_streams` that grows `ffmpeg_args`. */
  method AppendOutputArgs(args: seq<string>, entries: seq<SubStream>, base: string, ext: string)
    returns (result: seq<string>)
    ensures result == args + OutputArgs(entries, base, ext)
  {
    result := args;
    var i := 0;
    while i < |entries|
      invariant 0 <= i <= |entries|
      invariant result == args + OutputArgs(entries[..i], base, ext)
    {
      var subStream := entries[i];
      var outputName := UniqueFilename(base, subStream.subtitleTag, subStream.streamId, ext);
      result := result + subStream.streamMapping;
      result := result + ["-y", outputName];
      assert entries[..i + 1][..i] == entries[..i];
      i := i + 1;
    }
    assert entries[..i] == entries;
  }

  // ---------------------------------------------------------------------
  // After the extraction command
  // ---------------------------------------------------------------------

  /** How an external command ended: exit status 0, or non-zero with its stderr. */
  datatype Exit = Succeeded | Failed(stderr: string)

  /**
   * A failed extraction that only reports a missing subtitle stream, which
   * the worker tolerates: both of ffmpeg's phrases occur somewhere in stderr.
   */
  function IsBenignMappingFailure(stderr: string): (b: bool)
    ensures b <==> (exists i :: OccursAt(stderr, "Stream map '0:s:", i))
                   && (exists j :: OccursAt(stderr, "matches no streams", j))
  {
    ContainsIffOccurs(stderr, "Stream map '0:s:");
    ContainsIffOccurs(stderr, "matches no streams");
    Contains(stderr, "Stream map '0:s:") && Contains(stderr, "matches no streams")
  }

  /** The worker goes on to tag the file after this extraction outcome. */
  predicate ExtractionUsable(extraction: Exit) {
    extraction.Succeeded? || IsBenignMappingFailure(extraction.stderr)
  }

  /**
   * ffmpeg's complaint about a `-map 0:s:N?` stream that is not there is
   * classified as benign, whatever else stderr holds around it.
   */
  lemma MissingStreamMessageIsBenign(before: string, n: nat, after: string)
    ensures IsBenignMappingFailure(before + "Stream map '0:s:" + NatToString(n) + "' " + "matches no streams" + after)
  {
    var head := before + "Stream map '0:s:" + NatToString(n) + "' ";
    var s := head + "matches no streams" + after;
    assert s[|before|..|before| + 16] == "Stream map '0:s:";
    assert OccursAt(s, "Stream map '0:s:", |before|);
    assert s[|head|..|head| + 18] == "matches no streams";
    assert OccursAt(s, "matches no streams", |head|);
  }

  /**
   * The temporary file for the tagged copy: `{stem}_temp.mkv` in the
   * directory of `file_out` (ASS plugin), or `abspath` with every `.mkv`
   * replaced by `_temp.mkv` (SRT plugin). The cache-directory rule never
   * names the input file; the `.replace` rule names a different file exactly
   * when the input path contains `.mkv`, and otherwise the metadata command
   * writes onto its own input.
   */
  function TempOutputPath(kind: Kind, abspath: string, fileOut: string): (temp: string)
    ensures kind.tempRule.InCacheDirectory? ==> temp != abspath
    ensures kind.tempRule.ReplaceMkvSuffix? ==> (temp != abspath <==> Contains(abspath, ".mkv"))
  {
    match kind.tempRule
    case InCacheDirectory =>
      CacheTempPathIsSibling(abspath, Dirname(fileOut));
      PathJoin(Dirname(fileOut), SplitExt(Basename(abspath)).0 + "_temp.mkv")
    case ReplaceMkvSuffix =>
      ReplaceAllChangesIff(abspath, ".mkv", "_temp.mkv");
      ReplaceAll(abspath, ".mkv", "_temp.mkv")
  }

  /** `{stem}_temp.mkv` is a file name other than the one it is formed from. */
  lemma TempNameIsOtherName(name: string)
    requires '/' !in name
    ensures var tempName := SplitExt(name).0 + "_temp.mkv";
            tempName != "" && '/' !in tempName && tempName != name
  {
    var stem, ext := SplitExt(name).0, SplitExt(name).1;
    var tempName := stem + "_temp.mkv";
    assert name == stem + ext;
    forall i | 0 <= i < |tempName| ensures tempName[i] != '/' {
      if i < |stem| {
        assert tempName[i] == name[i];
      }
    }
  }

  /** The cache-directory temporary file lies in the given directory and is never the input file. */
  lemma CacheTempPathIsSibling(abspath: string, dir: string)
    ensures var tempName := SplitExt(Basename(abspath)).0 + "_temp.mkv";
            var temp := PathJoin(dir, tempName);
            temp != abspath && StartsWith(temp, dir) && Basename(temp) == tempName
  {
    var tempName := SplitExt(Basename(abspath)).0 + "_temp.mkv";
    TempNameIsOtherName(Basename(abspath));
    assert tempName[0] != '/';
    var temp := PathJoin(dir, tempName);
    assert temp[..|dir|] == dir;
    BasenameOfJoin(dir, tempName);
  }

  /**
   * The second command: read `abspath`, copy every stream and all metadata,
   * set the kind's marker tag to `extracted`, and write (overwriting) the
   * temporary file.
   */
  function MetadataCommand(kind: Kind, abspath: string, tempOutput: string): (cmd: seq<string>)
    ensures |cmd| == 11
    ensures cmd[..3] == ["ffmpeg", "-i", abspath]
    ensures cmd[|cmd| - 2..] == ["-y", tempOutput]
    ensures ["-metadata", kind.tagKey + "=" + ExtractedMarker] == cmd[5..7]
    ensures ["-map_metadata", "0"] == cmd[3..5]
    ensures ["-c", "copy"] == cmd[7..9]
  {
    ["ffmpeg", "-i", abspath, "-map_metadata", "0", "-metadata", kind.tagKey + "=" + ExtractedMarker,
     "-c", "copy", "-y", tempOutput]
  }

  /**
   * Once the marker tag that `MetadataCommand` writes is in the container,
   * the oracle reports the file as handled (unless `extract_regardless` is
   * set), so the worker does not tag it twice.
   */
  lemma TaggedFileIsDone(kind: Kind, settings: Settings, path: string, info: DirectoryInfo,
                         probe: Probe, existing: seq<string>)
    requires probe.Video? && !settings.extractRegardless
    requires Get(probe.formatTags, kind.tagKey, "") == ExtractedMarker
    ensures AlreadyExtracted(kind, settings, path, info, probe, existing)
  {
    LowerOfLower(ExtractedMarker);
    assert SubsTag(kind, probe) == ExtractedMarker;
  }

  /** An external action the worker performs. */
  datatype Effect =
    | RunCommand(args: seq<string>)
    | MakeDirs(dir: string)
    | ReplaceFile(src: string, dst: string)   // shutil.move / os.replace

  /** What the world answers to the worker's actions, and what it reads. */
  datatype WorkerEnv = WorkerEnv(
    settings: Settings,
    directoryInfo: DirectoryInfo,
    probe: Probe,
    existing: seq<string>,      // the paths that exist, for the sidecar glob
    extraction: Exit,           // outcome of the extraction command
    cacheDirExists: bool,       // the directory of `file_out` exists (ASS plugin)
    makeDirsSucceeds: bool,     // `os.makedirs` of it succeeds (ASS plugin)
    metadataSucceeds: bool)     // the metadata command exits with status 0

  /** The actions after the extraction command, and whether one of them raised. */
  datatype Finish = Finish(effects: seq<Effect>, raised: bool)

  /**
   * The actions once the extraction is usable: make the cache directory if
   * needed (stopping with an exception when that fails), run the metadata
   * command `tag`, and perform `replace` only if it succeeded.
   */
  function TagThenReplace(needDir: bool, dir: string, makeDirsSucceeds: bool,
                          tag: Effect, replace: Effect, metadataSucceeds: bool): (r: Finish)
    requires tag.RunCommand? && replace.ReplaceFile?
    ensures r.raised <==> needDir && !makeDirsSucceeds
    ensures r.raised ==> r.effects == [MakeDirs(dir)]
    ensures !r.raised ==> r.effects == (if needDir then [MakeDirs(dir)] else []) + [tag]
                                       + (if metadataSucceeds then [replace] else [])
    ensures replace in r.effects <==> !r.raised && metadataSucceeds
    ensures forall i :: 0 <= i < |r.effects| && r.effects[i].ReplaceFile? ==>
              i == |r.effects| - 1 && i > 0 && r.effects[i - 1] == tag
  {
    var mkdirs := MakeDirs(dir);
    if needDir then
      if !makeDirsSucceeds then Finish([mkdirs], true)
      else if metadataSucceeds then Finish([mkdirs, tag, replace], false)
      else Finish([mkdirs, tag], false)
    else if metadataSucceeds then Finish([tag, replace], false)
    else Finish([tag], false)
  }

  /**
   * Tag, then replace: nothing after a failed extraction unless it is the
   * benign kind; the original is replaced only by the temporary copy, only
   * after the metadata command succeeded, and as the very last action.
   */
  function FinishAfterExtraction(kind: Kind, abspath: string, fileOut: string, env: WorkerEnv): (r: Finish)
    ensures !ExtractionUsable(env.extraction) ==> r == Finish([], false)
    ensures r.raised <==> ExtractionUsable(env.extraction) && kind.tempRule.InCacheDirectory?
                          && !env.cacheDirExists && !env.makeDirsSucceeds
    ensures r.raised ==> r.effects == [MakeDirs(Dirname(fileOut))]
    ensures ExtractionUsable(env.extraction) && !r.raised ==>
              var tempOutput := TempOutputPath(kind, abspath, fileOut);
              r.effects == (if kind.tempRule.InCacheDirectory? && !env.cacheDirExists
                            then [MakeDirs(Dirname(fileOut))] else [])
                           + [RunCommand(MetadataCommand(kind, abspath, tempOutput))]
                           + (if env.metadataSucceeds then [ReplaceFile(tempOutput, abspath)] else [])
    ensures ReplaceFile(TempOutputPath(kind, abspath, fileOut), abspath) in r.effects
            <==> ExtractionUsable(env.extraction) && !r.raised && env.metadataSucceeds
    ensures forall i :: 0 <= i < |r.effects| && r.effects[i].ReplaceFile? ==>
              i == |r.effects| - 1 && i > 0
              && r.effects[i - 1] == RunCommand(MetadataCommand(kind, abspath, TempOutputPath(kind, abspath, fileOut)))
  {
    if !ExtractionUsable(env.extraction) then Finish([], false)
    else
      var tempOutput := TempOutputPath(kind, abspath, fileOut);
      TagThenReplace(kind.tempRule.InCacheDirectory? && !env.cacheDirExists, Dirname(fileOut),
                     env.makeDirsSucceeds, RunCommand(MetadataCommand(kind, abspath, tempOutput)),
                     ReplaceFile(tempOutput, abspath), env.metadataSucceeds)
  }

  // ---------------------------------------------------------------------
  // The host's `data` dictionaries and the two hooks
  // ---------------------------------------------------------------------

  /** The `data` dictionary of `on_library_management_file_test`. */
  class FileTestData {
    const path: string
    /** `data['add_file_to_pending_tasks']`, `None` when the key is absent. */
    var addFileToPendingTasks: Option<bool>

    constructor (path: string, addFileToPendingTasks: Option<bool>)
      ensures this.path == path && this.addFileToPendingTasks == addFileToPendingTasks
    {
      this.path := path;
      this.addFileToPendingTasks := addFileToPendingTasks;
    }
  }

  /** Queue the file exactly when the oracle says it has not been handled; otherwise leave `data` alone. */
  method OnLibraryManagementFileTest(kind: Kind, data: FileTestData, settings: Settings,
                                     info: DirectoryInfo, probe: Probe, existing: seq<string>)
    modifies data
    ensures data.addFileToPendingTasks
            == if !AlreadyExtracted(kind, settings, data.path, info, probe, existing) then Some(true)
               else old(data.addFileToPendingTasks)
  {
    var abspath := data.path;
    if !AlreadyExtracted(kind, settings, abspath, info, probe, existing) {
      data.addFileToPendingTasks := Some(true);
    }
  }

  /** The `data` dictionary of `on_worker_process`. */
  class WorkerData {
    const fileIn: string
    const fileOut: string
    const originalFilePath: string
    /** `data['exec_command']`: `None` or a list of arguments. */
    var execCommand: Option<seq<string>>
    var repeat: bool
    /** `data['command_progress_parser']` has been set. */
    var hasProgressParser: bool

    constructor (fileIn: string, fileOut: string, originalFilePath: string)
      ensures this.fileIn == fileIn && this.fileOut == fileOut && this.originalFilePath == originalFilePath
      ensures execCommand == Some([]) && !repeat && !hasProgressParser
    {
      this.fileIn := fileIn;
      this.fileOut := fileOut;
      this.originalFilePath := originalFilePath;
      execCommand := Some([]);
      repeat := false;
      hasProgressParser := false;
    }
  }

  /** How `on_worker_process` ends: it returns `data`, or an exception escapes it. */
  datatype WorkerExit = Returned | Raised(reason: string)

  /**
   * `on_worker_process`. `mapper` is the stream mapper after the base class
   * has offered it every stream; `streamsNeedProcessing` is what its
   * `streams_need_processing()` answered.
   */
  method OnWorkerProcess(kind: Kind, data: WorkerData, env: WorkerEnv,
                         mapper: PluginStreamMapper, streamsNeedProcessing: bool)
    returns (effects: seq<Effect>, exit: WorkerExit)
    requires mapper.Valid() && mapper.kind == kind && mapper.settings == env.settings
    modifies data, mapper`inputFile
    ensures !data.repeat
    ensures var abspath := data.fileIn;
            var done := AlreadyExtracted(kind, env.settings, abspath, env.directoryInfo, env.probe, env.existing);
            if env.probe.NotVideo? || (!done && !streamsNeedProcessing) then
              data.execCommand == Some([]) && effects == [] && exit == Returned
              && data.hasProgressParser == old(data.hasProgressParser)
              && mapper.inputFile == old(mapper.inputFile)
            else if done then
              data.execCommand == None && effects == [] && exit == Returned
              && data.hasProgressParser == old(data.hasProgressParser)
              && mapper.inputFile == old(mapper.inputFile)
            else if abspath == "" then
              data.execCommand == Some([]) && effects == [] && exit.Raised?
              && data.hasProgressParser == old(data.hasProgressParser)
              && mapper.inputFile == Some(abspath)
            else
              var outputs := OutputArgs(mapper.subStreams, SplitExt(data.originalFilePath).0, kind.extension);
              var command := ["ffmpeg"] + mapper.genericOptions + ["-i", abspath] + mapper.mainOptions
                             + mapper.advancedOptions + outputs;
              var finish := FinishAfterExtraction(kind, abspath, data.fileOut, env);
              data.execCommand == Some(command) && data.hasProgressParser
              && mapper.inputFile == Some(abspath)
              && effects == [RunCommand(command)] + finish.effects
              && exit.Raised? == finish.raised
              && FourArgsPerEntry(outputs, mapper.subStreams, SplitExt(data.originalFilePath).0, kind.extension)
  {
    data.execCommand := Some([]);
    data.repeat := false;
    effects := [];
    exit := Returned;
    var abspath := data.fileIn;
    if env.probe.NotVideo? {
      return;
    }
    if AlreadyExtracted(kind, env.settings, abspath, env.directoryInfo, env.probe, env.existing) {
      data.execCommand := None;
      return;
    }
    if !streamsNeedProcessing {
      return;
    }
    mapper.inputFile := Some(abspath);
    var args := mapper.GetFfmpegArgs();
    if args.Failure? {
      return [], Raised(args.error);
    }
    var basePath := SplitExt(data.originalFilePath).0;
    OutputArgsLayout(mapper.subStreams, basePath, kind.extension);
    var ffmpegArgs := AppendOutputArgs(args.value, mapper.subStreams, basePath, kind.extension);
    var command := ["ffmpeg"] + ffmpegArgs;
    assert command == ["ffmpeg"] + mapper.genericOptions + ["-i", abspath] + mapper.mainOptions
                      + mapper.advancedOptions + OutputArgs(mapper.subStreams, basePath, kind.extension);
    data.execCommand := Some(command);
    data.hasProgressParser := true;
    effects := [RunCommand(command)];
    var finish := FinishAfterExtraction(kind, abspath, data.fileOut, env);
    effects := effects + finish.effects;
    if finish.raised {
      exit := Raised("os.makedirs failed");
    }
  }

  // ---------------------------------------------------------------------
  // How the pieces fit together
  // ---------------------------------------------------------------------

  /**
   * Once one of the worker's sidecar files exists, the oracle reports the
   * file as handled (unless `extract_regardless` is set), whatever the
   * marker tag says: repeated runs stop. This needs a base path without glob
   * metacharacters: `/m/Movie [1080p].*.ass` reads `[1080p]` as a character
   * class and misses the worker's own output.
   */
  lemma OwnOutputStopsReprocessing(kind: Kind, settings: Settings, path: string, info: DirectoryInfo,
                                   probe: Probe, existing: seq<string>, entry: SubStream)
    requires probe.Video? && ContainerAccepted(kind, path) && !settings.extractRegardless
    requires NoGlobMagic(SplitExt(path).0) && '/' !in entry.subtitleTag
    requires UniqueFilename(SplitExt(path).0, entry.subtitleTag, entry.streamId, kind.extension) in existing
    ensures AlreadyExtracted(kind, settings, path, info, probe, existing)
  {
    var base := SplitExt(path).0;
    var name := UniqueFilename(base, entry.subtitleTag, entry.streamId, kind.extension);
    UniqueFilenameMatchesSidecarPattern(base, entry.subtitleTag, entry.streamId, kind.extension);
    var k :| 0 <= k < |existing| && existing[k] == name;
    assert SidecarsExist(base, kind.extension, existing);
  }

  /**
   * When the oracle asks for extraction (without `extract_regardless`) and
   * no language is configured, the mapper accepts at least one subtitle
   * stream of the probe.
   */
  lemma PendingFileHasSelectableStream(m: PluginStreamMapper, settings: Settings, path: string,
                                       info: DirectoryInfo, probe: Probe, existing: seq<string>)
    requires probe.Video? && !settings.extractRegardless
    requires !AlreadyExtracted(m.kind, settings, path, info, probe, existing)
    requires m.LanguageList() == []
    ensures exists k :: 0 <= k < |probe.streams| && probe.streams[k].codecType == "subtitle"
                        && m.TestStreamNeedsProcessing(probe.streams[k])
  {
    var k :| 0 <= k < |probe.streams| && probe.streams[k].codecType == "subtitle"
             && IsTargetCodec(m.kind, probe.streams[k]);
    assert m.TestStreamNeedsProcessing(probe.streams[k]);
  }

  /**
   * The other side of the previous lemma: with languages configured and every
   * target subtitle stream tagged with an unlisted language, the oracle still
   * asks for extraction, but the mapper accepts no subtitle stream (the only
   * kind the base class offers it), so the worker leaves the file as it is
   * and the file test queues it again whenever it is asked.
   */
  lemma UnlistedLanguagesStayPending(m: PluginStreamMapper, settings: Settings, path: string,
                                     info: DirectoryInfo, probe: Probe, existing: seq<string>)
    requires m.settings == settings && probe.Video? && !settings.extractRegardless
    requires !RecordSaysExtracted(m.kind, info, path) && ContainerAccepted(m.kind, path)
    requires !SidecarsExist(SplitExt(path).0, m.kind.extension, existing)
    requires SubsTag(m.kind, probe) != ExtractedMarker && HasTargetSubtitles(m.kind, probe.streams)
    requires m.LanguageList() != []
    requires forall k ::
               (0 <= k < |probe.streams| && probe.streams[k].codecType == "subtitle"
                && IsTargetCodec(m.kind, probe.streams[k])) ==> LanguageTag(probe.streams[k]) !in m.LanguageList()
    ensures !AlreadyExtracted(m.kind, settings, path, info, probe, existing)
    ensures forall k ::
              (0 <= k < |probe.streams| && probe.streams[k].codecType == "subtitle") ==>
                !m.TestStreamNeedsProcessing(probe.streams[k])
  {
  }
}
