/**
 * `PluginStreamMapper`: which subtitle streams are wanted, the `-map`/`-c:s`
 * arguments for each, and the `sub_streams` list the worker later turns into
 * output files. The base class that calls these methods once per stream and
 * computes `stream_id` is not part of this model; `stream_id` is a parameter.
 */
module StreamMapping {
  import opened Wrappers
  import opened Strings
  import opened Media
  import opened Languages

  /** One entry of `self.sub_streams`. */
  datatype SubStream = SubStream(streamId: nat, subtitleTag: string, streamMapping: seq<string>)

  /** The dictionary `custom_stream_mapping` returns. */
  datatype Mapping = Mapping(streamMapping: seq<string>, streamEncoding: seq<string>)

  /** `f'0:s:{stream_id}?'`: the stream_id-th subtitle stream of input 0, if present. */
  function StreamSpecifier(id: nat): (spec: string)
    ensures StartsWith(spec, "0:s:") && EndsWith(spec, "?")
  {
    "0:s:" + NatToString(id) + "?"
  }

  /** Different streams get different specifiers. */
  lemma StreamSpecifierInjective(m: nat, n: nat)
    requires StreamSpecifier(m) == StreamSpecifier(n)
    ensures m == n
  {
    var s := StreamSpecifier(m);
    assert NatToString(m) == s[4..|s| - 1];
    assert NatToString(n) == s[4..|s| - 1];
    NatToStringInjective(m, n);
  }

  function MapArgs(id: nat): seq<string> {
    ["-map", StreamSpecifier(id)]
  }

  function CopyArgs(id: nat): seq<string> {
    ["-c:s:" + NatToString(id), "copy"]
  }

  /** Every entry maps the stream it names. */
  predicate WellFormedEntries(entries: seq<SubStream>) {
    forall k :: 0 <= k < |entries| ==> entries[k].streamMapping == MapArgs(entries[k].streamId)
  }

  class PluginStreamMapper {
    /** Which plugin this mapper belongs to. */
    const kind: Kind
    var settings: Settings
    var subStreams: seq<SubStream>
    /** Option lists the base class fills in; `get_ffmpeg_args` reads them. */
    var genericOptions: seq<string>
    var mainOptions: seq<string>
    var advancedOptions: seq<string>
    /** `self.input_file`: `None` until `set_input_file`. */
    var inputFile: Option<string>

    /** Every `sub_streams` entry maps the stream it names. */
    ghost predicate Valid()
      reads this
    {
      WellFormedEntries(subStreams)
    }

    /**
     * `PluginStreamMapper()` followed by `set_settings(settings)`. The option
     * lists and `input_file` belong to the `StreamMapper` base class, which
     * is not part of this model; they are assumed to start empty and unset.
     */
    constructor (kind: Kind, settings: Settings)
      ensures this.kind == kind && this.settings == settings
      ensures subStreams == [] && inputFile == None
      ensures genericOptions == [] && mainOptions == [] && advancedOptions == []
      ensures Valid()
    {
      this.kind := kind;
      this.settings := settings;
      subStreams := [];
      genericOptions, mainOptions, advancedOptions := [], [], [];
      inputFile := None;
    }

    /** `_get_language_list()` on the mapper's settings. */
    function LanguageList(): (langs: seq<string>)
      reads this
      ensures forall k :: 0 <= k < |langs| ==> IsLanguageToken(langs[k])
    {
      GetLanguageList(settings.languagesToExtract)
    }

    /**
     * `test_stream_needs_processing`: only streams of the kind's codecs; all
     * of them when no language is configured, otherwise those whose
     * (lower-cased) language tag is listed. A stream without a language tag
     * is therefore never selected once a language is configured.
     */
    function TestStreamNeedsProcessing(stream: StreamInfo): (r: bool)
      reads this
      ensures r ==> IsTargetCodec(kind, stream)
      ensures LanguageList() == [] ==> (r <==> IsTargetCodec(kind, stream))
      ensures LanguageList() != [] ==> (r <==> IsTargetCodec(kind, stream) && LanguageTag(stream) in LanguageList())
      ensures r && LanguageList() != [] ==> LanguageTag(stream) != "" && NoSpace(LanguageTag(stream))
    {
      if !IsTargetCodec(kind, stream) then false
      else
        var languages := LanguageList();
        if |languages| == 0 then true
        else LanguageTag(stream) in languages
    }

    /**
     * `custom_stream_mapping`: a stream whose language is filtered out gets
     * empty argument lists and leaves `sub_streams` alone; any other stream is
     * appended to `sub_streams` and gets `-map 0:s:{id}?` and `-c:s:{id} copy`.
     */
    method CustomStreamMapping(stream: StreamInfo, streamId: nat) returns (m: Mapping)
      requires Valid()
      modifies this`subStreams
      ensures Valid()
      ensures old(subStreams) <= subStreams && |subStreams| <= |old(subStreams)| + 1
      ensures var tag := LanguageTag(stream);
              if LanguageList() != [] && tag !in LanguageList() then
                m == Mapping([], []) && subStreams == old(subStreams)
              else
                m == Mapping(MapArgs(streamId), CopyArgs(streamId))
                && subStreams == old(subStreams) + [SubStream(streamId, tag, MapArgs(streamId))]
    {
      var languageTag := LanguageTag(stream);
      var languages := LanguageList();
      if |languages| > 0 && languageTag !in languages {
        return Mapping([], []);
      }
      var subtitleTag := languageTag;
      var streamSpecifier := StreamSpecifier(streamId);
      subStreams := subStreams + [SubStream(streamId, subtitleTag, ["-map", streamSpecifier])];
      m := Mapping(["-map", streamSpecifier], ["-c:s:" + NatToString(streamId), "copy"]);
    }

    /**
     * `get_ffmpeg_args`: generic options, `-i <input>`, main options, advanced
     * options; raises when no input file is set (unset or empty).
     */
    method GetFfmpegArgs() returns (r: Result<seq<string>, string>)
      ensures r.Failure? <==> inputFile == None || inputFile == Some("")
      ensures r.Success? ==> r.value == genericOptions + ["-i", inputFile.value] + mainOptions + advancedOptions
    {
      var args: seq<string> := [];
      args := args + genericOptions;
      if inputFile == None || inputFile.value == "" {
        return Failure("Input file has not been set");
      }
      args := args + ["-i", inputFile.value];
      args := args + mainOptions;
      args := args + advancedOptions;
      return Success(args);
    }
  }
}
