/** The turn-response decoder `parseGameContent` of MessageHistory.tsx: it
    recovers a narrative, options and state changes from the model's
    supposedly-JSON output through a fixed cascade of strategies. JSON.parse is
    a library call and is taken as a parameter: it returns `None` where it
    would throw. */
module Decoder {

  import opened Wrappers
  import opened Text
  import opened Json
  import opened Escapes
  import opened Patterns
  import opened Api

  const FenceOpen: string := "```json"
  const FenceClose: string := "```"
  /** Brace extraction applies only when the first `{` is before this index,
      counted in UTF-16 code units as JavaScript's indexOf counts. */
  const BraceLimit: nat := 20
  /** The literal marker the salvage strategy cuts at. */
  const OptionsMarker: string := "\"options\":"

  /** The match of /```json\s*([\s\S]*?)\s*```/: the index of the first
      ```json that has a ``` after it, and of the first such ```. */
  function FenceMatch(s: string): (r: Option<(nat, nat)>)
    ensures r.Some? ==> OccursAt(s, FenceOpen, r.value.0) && OccursAt(s, FenceClose, r.value.1)
                        && r.value.0 + |FenceOpen| <= r.value.1
    ensures r.Some? ==> forall k :: 0 <= k < r.value.0 ==> !OccursAt(s, FenceOpen, k)
    ensures r.Some? ==> forall k :: r.value.0 + |FenceOpen| <= k < r.value.1 ==> !OccursAt(s, FenceClose, k)
    ensures r.None? ==> forall p, t :: OccursAt(s, FenceOpen, p) && p + |FenceOpen| <= t ==>
                          !OccursAt(s, FenceClose, t)
  {
    match IndexOfFrom(s, FenceOpen, 0)
    case None => None
    case Some(p) =>
      match IndexOfFrom(s, FenceClose, p + |FenceOpen|)
      case None => None
      case Some(t) => Some((p, t))
  }

  /** The fence's captured group: the text between the fences without the
      whitespace around it (the lazy group between the two `\s*`). */
  function FenceInterior(s: string, p: nat, t: nat): (r: string)
    requires p + |FenceOpen| <= t <= |s|
    ensures r == [] || (!IsSpace(r[0]) && !IsSpace(r[|r| - 1]))
    ensures exists i :: p + |FenceOpen| <= i && i + |r| <= t && OccursAt(s, r, i)
  {
    var x := s[p + |FenceOpen|..t];
    TrimOccurs(x);
    var j :| OccursAt(x, Trim(x), j);
    assert OccursAt(s, x, p + |FenceOpen|);
    OccursWithin(s, x, Trim(x), p + |FenceOpen|, j);
    Trim(s[p + |FenceOpen|..t])
  }

  /** `f` is the index of the first `c` in `s`. */
  predicate FirstOf(s: string, c: char, f: int) {
    0 <= f < |s| && s[f] == c && forall k :: 0 <= k < f ==> s[k] != c
  }

  /** The first `{` and the last `}`, when the text looks wholly wrapped in
      braces: both exist, the last comes after the first, and the first
      is before BraceLimit in UTF-16 code units. The positions returned are
      character indexes; the `{` and `}` are single code units, so the piece
      between them is the one `substring` cuts. */
  function BraceSpan(s: string): (r: Option<(nat, nat)>)
    ensures r.Some? ==> r.value.0 < r.value.1 < |s| && Utf16Length(s[..r.value.0]) < BraceLimit
                        && s[r.value.0] == '{' && s[r.value.1] == '}'
    ensures r.Some? ==> (forall k :: 0 <= k < r.value.0 ==> s[k] != '{')
                        && (forall k :: r.value.1 < k < |s| ==> s[k] != '}')
    ensures r.None? ==> forall f, l :: FirstOf(s, '{', f) && Utf16Length(s[..f]) < BraceLimit && f < l < |s| ==>
                          s[l] != '}'
  {
    match (FindChar(s, '{', 0), LastIndexBefore(s, '}', |s|))
    case (Some(f), Some(l)) => if l > f && Utf16Length(s[..f]) < BraceLimit then Some((f, l)) else None
    case _ => None
  }

  /** The text the parse strategies work on: the fence interior, else the
      brace span, else the whole content. It is always a piece of the content. */
  function WorkingText(content: string): (w: string)
    ensures exists i :: OccursAt(content, w, i)
  {
    match FenceMatch(content)
    case Some((p, t)) =>
      var x := content[p + |FenceOpen|..t];
      TrimOccurs(x);
      var j :| OccursAt(x, Trim(x), j);
      assert OccursAt(content, x, p + |FenceOpen|);
      OccursWithin(content, x, Trim(x), p + |FenceOpen|, j);
      FenceInterior(content, p, t)
    case None =>
      match BraceSpan(content)
      case Some((f, l)) =>
        assert OccursAt(content, content[f..l + 1], f);
        content[f..l + 1]
      case None =>
        assert OccursAt(content, content, 0);
        content
  }

  /** The strict strategy's acceptance test: a parse that succeeded, is an
      object (so not null, and not an array: an array has no `narrative`
      property) and has the key `narrative`. */
  predicate AcceptsStrict(v: Option<JsonValue>)
    ensures AcceptsStrict(v) <==> v.Some? && Prop(v.value, "narrative").Some?
  {
    v.Some? && v.value.JObject? && "narrative" in v.value.fields
  }

  /** The text without one trailing `,`, re-trimmed: a piece of it. */
  function DropComma(raw: string): (r: string)
    ensures exists i :: OccursAt(raw, r, i)
  {
    if |raw| > 0 && raw[|raw| - 1] == ',' then
      (var x := raw[..|raw| - 1];
       TrimOccurs(x);
       var j :| OccursAt(x, Trim(x), j);
       assert OccursAt(raw, x, 0);
       OccursWithin(raw, x, Trim(x), 0, j);
       Trim(x))
    else
      assert OccursAt(raw, raw, 0);
      raw
  }

  /** Drops one trailing `,` (and re-trims), then one trailing `"`. The
      result is a piece of the input, and text that ends in neither is left
      as it is. */
  function DropTrailing(raw: string): (r: string)
    ensures exists i :: OccursAt(raw, r, i)
    ensures raw == [] || (raw[|raw| - 1] != ',' && raw[|raw| - 1] != '"') ==> r == raw
  {
    var r1 := DropComma(raw);
    var i :| OccursAt(raw, r1, i);
    if |r1| > 0 && r1[|r1| - 1] == '"' then
      (assert OccursAt(r1, r1[..|r1| - 1], 0);
       OccursWithin(raw, r1, r1[..|r1| - 1], i, 0);
       r1[..|r1| - 1])
    else r1
  }

  // `raw.replace(/^\{\s*/, '')`: a leading brace and the whitespace after
  // it. What is left is a suffix that does not start with whitespace.
  function StripBrace(raw: string): (r: string)
    ensures |r| <= |raw| && raw[|raw| - |r|..] == r
    ensures raw == [] || raw[0] != '{' ==> r == raw
    ensures raw != [] && raw[0] == '{' ==>
              |r| < |raw| && AllSpace(raw, 1, |raw| - |r|) && (r == [] || !IsSpace(r[0]))
  {
    if |raw| > 0 && raw[0] == '{' then raw[SkipSpace(raw, 1)..] else raw
  }

  /** Cuts everything up to the end of the first `"narrative": "` key, or,
      without one, a leading brace and the whitespace after it. */
  function DropLeading(raw: string): (r: string)
    ensures |r| <= |raw| && raw[|raw| - |r|..] == r
    ensures Search(raw, NarrativeKey).Some? ==>
              |r| < |raw| && r == raw[Search(raw, NarrativeKey).value.open + 1..]
    ensures Search(raw, NarrativeKey).None? && Trim(raw) != [] && Trim(raw)[0] == '{' ==>
              r == StripBrace(raw)
    ensures Search(raw, NarrativeKey).None? && (Trim(raw) == [] || Trim(raw)[0] != '{') ==> r == raw
  {
    match Search(raw, NarrativeKey)
    case Some(h) => raw[h.open + 1..]
    case None =>
      var t := Trim(raw);
      if |t| > 0 && t[0] == '{' then StripBrace(raw) else raw
  }

  /** Step 5, the salvage: everything before the first `"options":`, with the
      JSON debris around it removed, then unescaped. It applies exactly when
      the marker occurs. */
  function Salvage(w: string): (r: Option<string>)
    ensures r.Some? <==> exists i :: OccursAt(w, OptionsMarker, i)
  {
    match IndexOfFrom(w, OptionsMarker, 0)
    case None => None
    case Some(i) => Some(Unescape(DropLeading(DropTrailing(Trim(w[..i])))))
  }

  /** Steps 4 and 5: the `"narrative"` string found by the regex, unescaped;
      only when there is no such match, the salvage. */
  function RecoverNarrative(w: string): (r: Option<string>)
    ensures r.None? <==> Search(w, NarrativeString).None? && IndexOfFrom(w, OptionsMarker, 0).None?
  {
    NarrativeFrom(w, Search(w, NarrativeString))
  }

  /** The narrative given the regex's match, or the salvage without one. */
  function NarrativeFrom(w: string, m: Option<Hit>): Option<string>
    requires m.Some? ==> m.value.open < m.value.close <= |w|
  {
    if m.Some? then Some(Unescape(w[m.value.open + 1..m.value.close])) else Salvage(w)
  }

  /** The option values: each literal body with `\"` unescaped. */
  function OptionValues(bodies: seq<string>): (r: seq<string>)
    ensures |r| == |bodies|
    ensures forall k :: 0 <= k < |r| ==> r[k] == UnescapeQuotes(bodies[k])
  {
    seq(|bodies|, k requires 0 <= k < |bodies| => UnescapeQuotes(bodies[k]))
  }

  /** Step 6: the options of the recovery paths, the literals inside the first
      `"options": [ ... ]` span, or none. */
  function ExtractOptions(w: string): (r: seq<string>)
    ensures Search(w, OptionsArray).None? ==> r == []
    ensures 2 * |r| <= |w|
  {
    OptionsFrom(w, Search(w, OptionsArray))
  }

  function OptionsFrom(w: string, m: Option<Hit>): seq<string>
    requires m.Some? ==> m.value.open < m.value.close <= |w|
  {
    if m.None? then [] else ScanSpan(w[m.value.open + 1..m.value.close])
  }

  /** The options inside one `[ ... ]` span: its string literals, unescaped. */
  function ScanSpan(span: string): seq<string> {
    OptionValues(LiteralBodies(span))
  }

  /** The whole cascade, as a function of the content and the JSON parser. */
  function Decode(content: string, parse: string -> Option<JsonValue>): (r: Option<ParsedGameResponse>)
    ensures var w := WorkingText(content);
      && (r.Some? && r.value.Strict? <==> AcceptsStrict(parse(w)))
      && (r.Some? && r.value.Strict? ==> parse(w) == Some(JObject(r.value.fields)))
      && (r.Some? && r.value.Recovered? ==>
            && r.value.narrative != ""
            && RecoverNarrative(w) == Some(r.value.narrative)
            && r.value.options == ExtractOptions(w))
      && (r.None? <==> !AcceptsStrict(parse(w)) && RecoverNarrative(w) in {None, Some("")})
  {
    var w := WorkingText(content);
    var parsed := parse(w);
    if AcceptsStrict(parsed) then Some(Strict(parsed.value.fields))
    else
      match RecoverNarrative(w)
      case Some(n) => if n != "" then Some(Recovered(n, ExtractOptions(w))) else None
      case None => None
  }

  /** The first step of `parseGameContent`: the text to parse. */
  method SelectJsonString(content: string) returns (jsonString: string)
    ensures jsonString == WorkingText(content)
  {
    jsonString := content;
    var jsonMatch := FenceMatch(content);
    if jsonMatch.Some? {
      jsonString := FenceInterior(content, jsonMatch.value.0, jsonMatch.value.1);
    } else {
      var firstBrace := FindChar(content, '{', 0);
      var lastBrace := LastIndexBefore(content, '}', |content|);
      if firstBrace.Some? && lastBrace.Some? && lastBrace.value > firstBrace.value
         && Utf16Length(content[..firstBrace.value]) < BraceLimit {
        jsonString := content[firstBrace.value..lastBrace.value + 1];
      }
    }
  }

  /** The fallback narrative of `parseGameContent`: the regex, then the
      salvage, reassigning the raw narrative step by step as the source does. */
  method FallbackNarrative(jsonString: string) returns (narrative: Option<string>)
    ensures narrative == RecoverNarrative(jsonString)
  {
    narrative := None;
    var narrativeMatch := Search(jsonString, NarrativeString);
    if narrativeMatch.Some? {
      var h := narrativeMatch.value;
      narrative := Some(Unescape(jsonString[h.open + 1..h.close]));
    } else {
      var optionsIndex := IndexOfFrom(jsonString, OptionsMarker, 0);
      if optionsIndex.Some? {
        var rawNarrative := Trim(jsonString[..optionsIndex.value]);
        rawNarrative := DropTrailing(rawNarrative);
        rawNarrative := DropLeading(rawNarrative);
        narrative := Some(Unescape(rawNarrative));
      }
    }
  }

  /** The options scan of `parseGameContent`: the literals of the first
      `"options": [ ... ]` span, each with `\"` unescaped. */
  method ScanOptions(jsonString: string) returns (options: seq<string>)
    ensures options == ExtractOptions(jsonString)
  {
    options := [];
    var optionsMatch := Search(jsonString, OptionsArray);
    if optionsMatch.Some? {
      var h := optionsMatch.value;
      options := ScanSpan(jsonString[h.open + 1..h.close]);
    }
  }

  /** `parseGameContent` as the source writes it: the strict parse, then the
      fallback narrative with the scanned options, else null. */
  method ParseGameContent(content: string, parse: string -> Option<JsonValue>)
    returns (result: Option<ParsedGameResponse>)
    ensures result == Decode(content, parse)
  {
    var jsonString := SelectJsonString(content);
    var parsed := parse(jsonString);
    if parsed.Some? && parsed.value.JObject? && "narrative" in parsed.value.fields {
      return Some(Strict(parsed.value.fields));
    }
    var narrative := FallbackNarrative(jsonString);
    if narrative.Some? && narrative.value != "" {
      var options := ScanOptions(jsonString);
      return Some(Recovered(narrative.value, options));
    }
    return None;
  }
}
