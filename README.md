# Subtitle extraction plugins for Unmanic, modelled in Dafny

Two Unmanic plugins, one for ASS/SSA subtitles and one for SRT (codec names
`srt`, `subrip` and `mov_txt`), decide whether a video file's embedded text subtitles still need
to be extracted to sidecar files. When they do, the plugins build the ffmpeg
command that copies each wanted subtitle stream to
`{base}.unmanic.{language}.{index}.{ext}`. They then write a container tag
(`ASS_SUB=extracted` or `srt_SUB=extracted`) into a temporary copy and move
that copy over the original.

The two plugins differ only in a handful of constants. The model writes the
logic once, parameterised by `Media.Kind` (`AssKind`, `SrtKind`): the codec
list, the tag key, the sidecar extension, the `.unmanic` section name,
whether only `.mkv` files are handled, and how the temporary path is formed.

Modules, one per file:

- `Wrappers` (wrappers.dfy): `Option` and `Result`.
- `Strings` (text.dfy): the Python `str` operations the plugins use. These are
  `\s` and `strip()` whitespace (CPython's whitespace table), ASCII `lower()`,
  `split(',')`, `join`, `in`, `replace` and `str(n)`.
- `Paths` (paths.dfy): POSIX `os.path.splitext`, `basename`, `dirname` and `join`.
- `Media` (media.dfy): `Kind`, the settings, and the probe's streams and format tags.
- `Languages` (languages.dfy): the `languages_to_extract` parser.
- `StreamMapping` (mapper.dfy): the class `PluginStreamMapper`, with its
  `sub_streams` list and option lists as fields.
- `Oracle` (oracle.dfy): `ass_already_extracted` / `srt_already_extracted` as
  one decision function. Its file-system reads are inputs: the `.unmanic`
  store, the probe result, and the list of paths that exist.
- `Worker` (worker.dfy): output file names, the argument loop, the stderr
  classifier, temporary paths, and the two host hooks. The host's `data`
  dictionaries are classes. The worker returns the ordered list of external
  actions it takes (run a command, make a directory, replace a file). Whether
  each action succeeded is an input.

Behaviour of the code that the model keeps as written:

- On a failed probe both plugins report "not extracted"
  (extract_ass_subtitles_to_files_soultaco83/plugin.py:184-186,
  extract_srt_subtitles_to_files_soultaco83/plugin.py:183-185).
- The ASS plugin puts its temporary file in the directory of `file_out`
  (extract_ass_subtitles_to_files_soultaco83/plugin.py:371-379). The SRT
  plugin uses `abspath.replace(".mkv", "_temp.mkv")`
  (extract_srt_subtitles_to_files_soultaco83/plugin.py:345). Without `.mkv`
  in the path, that is the input file itself.
- Both hooks return the `data` dictionary they were given, updated in place
  (extract_ass_subtitles_to_files_soultaco83/plugin.py:246 and :410).
- With languages configured, a file whose target streams all carry unlisted
  languages stays "not extracted", but the worker selects no stream for it.
  So the file-test hook queues it whenever it is asked
  (`Worker.UnlistedLanguagesStayPending`).
- The SRT plugin compares codec names against `mov_txt`
  (extract_srt_subtitles_to_files_soultaco83/plugin.py:74 and :199). Its
  comment at :193 speaks of MOV_TEXT, and ffprobe reports that codec as
  `mov_text`. The model keeps the string the code compares against.

## Model

| member | source | states |
|---|---|---|
| `Languages.GetLanguageList` | source/extract_ass_subtitles_to_files_soultaco83/plugin.py:65-70 | every code is non-empty, lower-case, and has no comma and no whitespace; an empty setting gives an empty list |
| `Languages.JoinParse` | source/extract_ass_subtitles_to_files_soultaco83/plugin.py:65-70 | any list of language codes (non-empty, lower-case, no comma, no whitespace), written as `a,b,c`, parses back to exactly that list |
| `Languages.TwoCodes` | source/extract_ass_subtitles_to_files_soultaco83/plugin.py:65-70 | `"eng,fre"` parses to `["eng", "fre"]` |
| `Languages.ParseJoinIdempotent` | source/extract_srt_subtitles_to_files_soultaco83/plugin.py:64-69 | parsing the comma-join of the parsed list gives the same list (a consequence of `JoinParse`) |
| `Languages.LeadingSpaceBecomesHyphen` | source/extract_srt_subtitles_to_files_soultaco83/plugin.py:66-69 | whitespace is folded before stripping, so `" eng"` reads as `"-eng"` |
| `StreamMapping.PluginStreamMapper.constructor` | source/extract_ass_subtitles_to_files_soultaco83/plugin.py:55-63 | a new mapper has an empty `sub_streams` list and the given settings |
| `StreamMapping.PluginStreamMapper.LanguageList` | source/extract_ass_subtitles_to_files_soultaco83/plugin.py:65-66 | the mapper's language list is the parse of its own setting, so every entry is a normalised code |
| `StreamMapping.PluginStreamMapper.TestStreamNeedsProcessing` | source/extract_ass_subtitles_to_files_soultaco83/plugin.py:72-94 | false for any codec outside the kind's set (`ass`/`ssa`, or `srt`/`mov_txt`/`subrip`), compared lower-cased; with no language configured, true for every stream of those codecs; otherwise true iff the lower-cased tag is listed, so an untagged stream is never picked |
| `StreamMapping.PluginStreamMapper.CustomStreamMapping` | source/extract_ass_subtitles_to_files_soultaco83/plugin.py:96-137 | a filtered-out language gives empty lists and leaves `sub_streams` unchanged; otherwise exactly one entry `(id, tag, ['-map', '0:s:{id}?'])` is appended and `(['-map', '0:s:{id}?'], ['-c:s:{id}', 'copy'])` is returned; earlier entries are never removed or reordered; every entry maps the stream it names |
| `StreamMapping.StreamSpecifier` | source/extract_ass_subtitles_to_files_soultaco83/plugin.py:119 | the specifier has the form `0:s:…?` |
| `StreamMapping.StreamSpecifierInjective` | source/extract_ass_subtitles_to_files_soultaco83/plugin.py:119 | different stream ids give different specifiers |
| `StreamMapping.PluginStreamMapper.GetFfmpegArgs` | source/extract_ass_subtitles_to_files_soultaco83/plugin.py:139-166 | raises exactly when the input file is unset or empty; otherwise returns generic ++ `['-i', input]` ++ main ++ advanced and changes no field |
| `Oracle.ScanForTargetSubtitles` | source/extract_ass_subtitles_to_files_soultaco83/plugin.py:194-202 | the loop with `break` finds a target stream iff some `subtitle` stream has one of the kind's codecs |
| `Oracle.AlreadyExtracted` | source/extract_ass_subtitles_to_files_soultaco83/plugin.py:168-226 | precedence: a truthy `.unmanic` record gives true; a failed probe gives false; for the ASS kind, a non-empty extension other than `mkv` gives true even under `extract_regardless`; then `extract_regardless` gives false; otherwise false exactly when there is no `base.*.ext` sidecar, the tag is not `extracted`, and a target stream exists. So the tag alone already gives true, and any sidecar gives true whatever the tag |
| `Paths.SplitExt` | source/extract_ass_subtitles_to_files_soultaco83/plugin.py:205 | base and extension concatenate back to the path; the extension is empty or one dot followed by no dot and no `/` |
| `Paths.Extension` | source/extract_ass_subtitles_to_files_soultaco83/plugin.py:206-207 | the extension compared with `mkv` is lower-case and has no dot and no `/` |
| `Paths.SplitExtFindsExtension` | source/extract_ass_subtitles_to_files_soultaco83/plugin.py:205-207 | for `d + stem + '.' + x` with no `/` in `stem` or `x`, no dot in `x` and some non-dot character in `stem`, the split is `(d + stem, '.' + x)` and the compared extension is `x` lower-cased |
| `Paths.SplitExtWithoutExtension` | source/extract_ass_subtitles_to_files_soultaco83/plugin.py:205-207 | a last component with no dot after its first non-dot character (a plain name, or a hidden name such as `.bashrc`) has no extension, so the extension compared with `mkv` is empty |
| `Oracle.MatchesSidecarPattern` | source/extract_ass_subtitles_to_files_soultaco83/plugin.py:208-209 | a name that matches `{base}.*.{ext}` is `base`, a dot, a `/`-free run, a dot and `ext`. Glob metacharacters in `base` are read literally, which is exact when `base` has none |
| `Oracle.SidecarPatternMatches` | source/extract_ass_subtitles_to_files_soultaco83/plugin.py:208-209 | conversely, every `base + '.' + m + '.' + ext` with no `/` in `m` matches the pattern |
| `Worker.OnLibraryManagementFileTest` | source/extract_srt_subtitles_to_files_soultaco83/plugin.py:222-240 | sets `add_file_to_pending_tasks` to true iff the oracle says not extracted; otherwise `data` is unchanged |
| `Worker.UniqueFilename` | source/extract_ass_subtitles_to_files_soultaco83/plugin.py:250-256 | the name is `{base}.unmanic.` … `.{ext}` |
| `Worker.UniqueFilenameInjective` | source/extract_ass_subtitles_to_files_soultaco83/plugin.py:254 | two output names of one file are equal only for the same tag and stream index, even when tags contain dots |
| `Worker.UniqueFilenameMatchesSidecarPattern` | source/extract_ass_subtitles_to_files_soultaco83/plugin.py:208 | when the base has none of `[`, `*`, `?` and the tag has no `/`, an output name matches the `{base}.*.{ext}` pattern the oracle globs for. A base such as `Movie [1080p]` is read as a pattern by the glob, and this does not hold for it |
| `Worker.AppendOutputArgs` | source/extract_srt_subtitles_to_files_soultaco83/plugin.py:303-318 | the loop appends, for each `sub_streams` entry in order, its map pair, `-y` and its output name |
| `Worker.OutputArgsLayout` | source/extract_srt_subtitles_to_files_soultaco83/plugin.py:303-318 | each entry adds exactly 4 arguments, `-map`, `0:s:{id}?`, `-y`, `base.unmanic.{tag}.{id}.{ext}`, at positions 4k to 4k+3 |
| `Worker.MissingStreamMessageIsBenign` | source/extract_ass_subtitles_to_files_soultaco83/plugin.py:361 | stderr holding ffmpeg's `Stream map '0:s:N' matches no streams` is benign, whatever surrounds it |
| `Worker.IsBenignMappingFailure` | source/extract_ass_subtitles_to_files_soultaco83/plugin.py:361 | a failed extraction is tolerated exactly when `Stream map '0:s:` occurs at some index of stderr and `matches no streams` occurs at some index |
| `Worker.TempOutputPath` | source/extract_srt_subtitles_to_files_soultaco83/plugin.py:345 | the ASS rule (ass:376-379) never names the input file; the SRT rule names a file other than `abspath` exactly when `abspath` contains `.mkv` |
| `Worker.CacheTempPathIsSibling` | source/extract_ass_subtitles_to_files_soultaco83/plugin.py:376-379 | the ASS temporary file lies in the directory of `file_out`, its basename is `{stem}_temp.mkv`, and it is never the input path |
| `Worker.MetadataCommand` | source/extract_ass_subtitles_to_files_soultaco83/plugin.py:382-389 | the second command reads `abspath`, keeps all existing metadata with `-map_metadata 0`, sets the kind's tag to `extracted` with `-metadata`, copies streams with `-c copy`, and overwrites (`-y`) the temporary file given last |
| `Worker.TaggedFileIsDone` | source/extract_srt_subtitles_to_files_soultaco83/plugin.py:187-218 | once the probe reports `{tagKey}` = `extracted` for the container, the oracle reports done unless `extract_regardless` is set (the key the probe reports back is an assumption, see Left out) |
| `Strings.ReplaceAllChangesIff` | source/extract_srt_subtitles_to_files_soultaco83/plugin.py:345 | `str.replace` with a longer replacement changes the string iff the pattern occurs in it |
| `Worker.FinishAfterExtraction` | source/extract_ass_subtitles_to_files_soultaco83/plugin.py:354-405 | after a non-benign extraction failure there are no actions. Otherwise the actions are exactly: `makedirs` of the directory of `file_out` when the ASS plugin finds it missing; then the metadata command; then, only if that succeeded, the replace of the original by the temporary file, as the last action. In the model, an exception escapes only when `makedirs` fails, and then the `makedirs` is the only action. The decode of the metadata command's stderr is not modelled, see Left out |
| `Worker.OnWorkerProcess` | source/extract_ass_subtitles_to_files_soultaco83/plugin.py:258-410 | `repeat` is false on every path; `exec_command` is `[]` after a failed probe, `None` when already extracted, and `[]` when `streams_need_processing()` is false (ass:407-408); an unset input raises; otherwise `input_file` is set to `file_in`, the command is `ffmpeg` ++ `get_ffmpeg_args()` ++ the per-entry outputs, four arguments per `sub_streams` entry, it runs first, and tag-then-replace follows as above |
| `Worker.OwnOutputStopsReprocessing` | source/extract_ass_subtitles_to_files_soultaco83/plugin.py:204-220 | for a file that probes as video and whose container the plugin accepts (any for SRT, `.mkv` or no extension for ASS), with `extract_regardless` off and a base path without `[`, `*`, `?`: once any of the worker's sidecar files exists, the oracle reports the file as done, so repeated runs stop. For a base such as `Movie [1080p]` the glob misses the outputs, and this does not hold |
| `Worker.PendingFileHasSelectableStream` | source/extract_ass_subtitles_to_files_soultaco83/plugin.py:194-223 | for a file that probes as video, with `extract_regardless` off and no language configured: if the oracle asks for extraction, the mapper accepts at least one subtitle stream. The other two conditions are needed. A failed probe or `extract_regardless` makes the oracle ask even for a file with no subtitles |
| `Worker.UnlistedLanguagesStayPending` | source/extract_ass_subtitles_to_files_soultaco83/plugin.py:96-111 | with languages configured and every target subtitle stream tagged with an unlisted language, the oracle still says "not extracted" (ass:221-223), but the mapper accepts no subtitle stream |

## Left out

- Process and file-system effects are not modelled: `subprocess.run`,
  `shutil.move`, `os.replace` and `os.makedirs`. The worker records them as
  actions, and their success or failure is an input.
- File-system reads are inputs: `glob.glob`, `os.path.exists` and
  `UnmanicDirectoryInfo`. The glob is modelled as a filter over a given list
  of existing paths. Glob metacharacters (`[`, `]`, `?`, `*`) inside the base
  path are treated literally.
- The `.unmanic` store is modelled as absent, unreadable (the read raised), or
  a map from (section, file name) to the truthiness of the stored value.
- `Probe`, `Parser.parse_progress` and the `StreamMapper` base class live in
  `lib/ffmpeg`, which is not part of this model. The probe result is a
  datatype. `streams_need_processing()`, the option lists and how `stream_id`
  is counted are not modelled. The worker takes the mapper as the base class
  left it, together with the boolean that `streams_need_processing()`
  returned. `set_input_file` is modelled as assigning `input_file`.
- `stream_id` is a natural number, because the base class counts streams
  from 0.
- `lower()` is modelled on ASCII letters only. Python also lower-cases
  non-ASCII letters.
- `PluginSettings` storage and its UI form are left out. The settings are a
  string and a boolean.
- Logging is left out.
- Dictionary values of the wrong type (for example a `None` codec name,
  which makes `.lower()` raise) are not modelled. A missing key reads as
  `''`, as `dict.get(key, '')` gives it.
- The extraction command can fail by raising `OSError` (for example when
  `ffmpeg` is missing). The model only has exit status 0 or non-zero with
  stderr.
- Worker.FinishAfterExtraction: a failed metadata command whose stderr is not
  valid UTF-8 makes `e.stderr.decode('utf-8')` raise `UnicodeDecodeError`
  inside the handler (extract_ass_subtitles_to_files_soultaco83/plugin.py:402,
  extract_srt_subtitles_to_files_soultaco83/plugin.py:364), and that exception
  escapes `on_worker_process`. The model treats a failed metadata command as
  handled.
- An `OSError` from `shutil.move` / `os.replace` is caught and logged. The
  model records the replace action as attempted.
- Worker.TaggedFileIsDone: the model assumes that the probe reports the
  marker tag under the same key the metadata command wrote (`ASS_SUB`,
  `srt_SUB`). How ffmpeg's muxer and ffprobe spell tag keys is not part of
  this model. If the key came back in different case,
  `format_tags.get('srt_SUB')`
  (extract_srt_subtitles_to_files_soultaco83/plugin.py:189) would not find it.
- StreamMapping.PluginStreamMapper.constructor: the option lists start empty
  and `input_file` starts unset. These are assumptions about the
  `StreamMapper` base class, which is not part of this model.
- The worker calls the oracle for `file_in`, but it names its outputs after
  `original_file_path`. The model keeps both paths as given.
  `OwnOutputStopsReprocessing` is stated for the case where the two share a
  base name.
