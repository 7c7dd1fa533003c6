/**
 * The `languages_to_extract` setting read as a list of language codes
 * (`PluginStreamMapper._get_language_list`).
 */
module Languages {
  import opened Strings

  /** What a parsed language code looks like. */
  predicate IsLanguageToken(t: string) {
    t != "" && ',' !in t && NoSpace(t) && IsLower(t)
  }

  /** `list(filter(None, parts))`: the non-empty strings, in order. */
  function DropEmpty(parts: seq<string>): (kept: seq<string>)
    ensures forall k :: 0 <= k < |kept| ==> kept[k] != ""
    ensures forall x :: x in kept <==> x in parts && x != ""
    decreases |parts|
  {
    if |parts| == 0 then []
    else if parts[0] == "" then DropEmpty(parts[1..])
    else [parts[0]] + DropEmpty(parts[1..])
  }

  lemma {:induction false} DropEmptyKeepsNonEmpty(parts: seq<string>)
    requires forall k :: 0 <= k < |parts| ==> parts[k] != ""
    ensures DropEmpty(parts) == parts
    decreases |parts|
  {
    if |parts| > 0 {
      DropEmptyKeepsNonEmpty(parts[1..]);
      assert parts == [parts[0]] + parts[1..];
    }
  }

  /** `[p.strip() for p in parts]`. */
  function StripEach(parts: seq<string>): (r: seq<string>)
    ensures |r| == |parts|
    ensures forall k :: 0 <= k < |parts| ==> r[k] == Strip(parts[k])
  {
    seq(|parts|, k requires 0 <= k < |parts| => Strip(parts[k]))
  }

  /** The pieces of a split of whitespace-free lower-case text are whitespace-free and lower-case. */
  lemma {:induction false} SplitKeepsNormal(s: string, sep: char)
    requires NoSpace(s) && IsLower(s)
    ensures forall k :: 0 <= k < |Split(s, sep)| ==> NoSpace(Split(s, sep)[k]) && IsLower(Split(s, sep)[k])
    decreases |s|
  {
    if |s| > 0 {
      var rest := Split(s[1..], sep);
      SplitKeepsNormal(s[1..], sep);
      if s[0] != sep {
        var first := [s[0]] + rest[0];
        assert forall j :: 1 <= j < |first| ==> first[j] == rest[0][j - 1];
        assert NoSpace(first) && IsLower(first);
        assert Split(s, sep) == [first] + rest[1..];
      }
    }
  }

  /** The normalised setting: whitespace folded to `-`, then lower-cased. */
  function Normalize(raw: string): (norm: string)
    ensures NoSpace(norm) && IsLower(norm)
  {
    Lower(HyphenateSpaces(raw))
  }

  /** The non-empty pieces of the normalised setting are already language codes. */
  lemma KeptPiecesAreTokens(norm: string)
    requires NoSpace(norm) && IsLower(norm)
    ensures var kept := DropEmpty(Split(norm, ','));
            (forall k :: 0 <= k < |kept| ==> IsLanguageToken(kept[k])) && StripEach(kept) == kept
  {
    var pieces := Split(norm, ',');
    var kept := DropEmpty(pieces);
    SplitKeepsNormal(norm, ',');
    forall k | 0 <= k < |kept|
      ensures IsLanguageToken(kept[k]) && Strip(kept[k]) == kept[k]
    {
      var t := kept[k];
      assert t in pieces;
      var p :| 0 <= p < |pieces| && pieces[p] == t;
      StripNoSpace(t);
    }
  }

  /**
   * `_get_language_list`: whitespace becomes `-`, the text is lower-cased,
   * split on `,`, empty entries are dropped and each entry is stripped.
   */
  function GetLanguageList(raw: string): (langs: seq<string>)
    ensures forall k :: 0 <= k < |langs| ==> IsLanguageToken(langs[k])
    ensures raw == "" ==> langs == []
  {
    var norm := Normalize(raw);
    var kept := DropEmpty(Split(norm, ','));
    KeptPiecesAreTokens(norm);
    assert raw == "" ==> kept == [] by {
      if raw == "" {
        assert norm == "" && Split(norm, ',') == [""];
      }
    }
    StripEach(kept)
  }

  /** The language codes themselves contain no whitespace and no upper case. */
  lemma JoinedTokensAreNormal(langs: seq<string>)
    requires forall k :: 0 <= k < |langs| ==> IsLanguageToken(langs[k])
    ensures NoSpace(Join(langs, ',')) && IsLower(Join(langs, ','))
  {
    var s := Join(langs, ',');
    forall i | 0 <= i < |s| ensures !IsSpace(s[i]) && !IsUpper(s[i]) {
      JoinChars(langs, ',', i);
    }
  }

  /**
   * Any list of language codes, written as `a,b,c`, parses back to itself:
   * `"eng,fre"` gives `["eng", "fre"]`.
   */
  lemma JoinParse(ts: seq<string>)
    requires forall k :: 0 <= k < |ts| ==> IsLanguageToken(ts[k])
    ensures GetLanguageList(Join(ts, ',')) == ts
  {
    var s := Join(ts, ',');
    JoinedTokensAreNormal(ts);
    HyphenateNoSpace(s);
    LowerOfLower(s);
    if |ts| == 0 {
      assert Split(s, ',') == [""];
    } else {
      SplitJoin(ts, ',');
      DropEmptyKeepsNonEmpty(ts);
      forall k | 0 <= k < |ts| ensures Strip(ts[k]) == ts[k] {
        StripNoSpace(ts[k]);
      }
    }
  }

  /** `"eng,fre"` lists two codes. */
  lemma TwoCodes()
    ensures GetLanguageList("eng,fre") == ["eng", "fre"]
  {
    var ts := ["eng", "fre"];
    assert IsLanguageToken("eng") && IsLanguageToken("fre");
    assert Join(ts, ',') == "eng,fre" by {
      assert Join(ts[1..], ',') == "fre";
    }
    JoinParse(ts);
  }

  /** Writing the parsed list back as `a,b,c` and parsing it again gives the same list. */
  lemma ParseJoinIdempotent(raw: string)
    ensures var langs := GetLanguageList(raw); GetLanguageList(Join(langs, ',')) == langs
  {
    JoinParse(GetLanguageList(raw));
  }

  /** A space is folded to a hyphen before stripping, so `" eng"` reads as `"-eng"`. */
  lemma LeadingSpaceBecomesHyphen()
    ensures GetLanguageList(" eng") == ["-eng"]
  {
    var h := HyphenateSpaces(" eng");
    assert h == "-eng";
    assert Normalize(" eng") == "-eng";
    SplitWithoutSep("-eng", ',');
    assert DropEmpty(["-eng"]) == ["-eng"];
    StripNoSpace("-eng");
  }
}
