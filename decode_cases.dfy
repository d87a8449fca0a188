/** Whole-decoder consequences of the cascade in MessageHistory.tsx: which
    text each strategy sees, when the result is null, and what a turn
    wrapped in prose decodes to. */
module DecodeCases {

  import opened Wrappers
  import opened Text
  import opened Json
  import opened Escapes
  import opened Patterns
  import opened Api
  import opened Decoder
  import opened Recovery

  /** A piece of a text free of `c` is free of `c`. */
  lemma FreePiece(s: string, t: string, i: int, c: char)
    requires OccursAt(s, t, i) && Free(s, c)
    ensures Free(t, c)
  {
    forall k | 0 <= k < |t| ensures t[k] != c {
      assert t[k] == s[i..i + |t|][k] == s[i + k];
    }
  }

  /** An occurrence starts with the pattern's first character. */
  lemma OccursHead(s: string, pat: string, i: int)
    requires OccursAt(s, pat, i) && |pat| > 0
    ensures s[i] == pat[0]
  {
    assert s[i] == s[i..i + |pat|][0];
  }

  /** Without a backtick there is no fence. */
  lemma NoFence(s: string)
    requires Free(s, '`')
    ensures FenceMatch(s).None?
  {
    forall p | OccursAt(s, FenceOpen, p) ensures false {
      OccursHead(s, FenceOpen, p);
    }
  }

  /** Text with no fence and no `{` among its first BraceLimit characters is
      decoded whole. */
  lemma WorkingTextWhole(content: string)
    requires Free(content, '`')
    requires forall k :: 0 <= k < |content| && k < BraceLimit ==> content[k] != '{'
    ensures WorkingText(content) == content
  {
    NoFence(content);
  }

  /** Characters above U+FFFF before the first `{` count twice against the
      brace limit: half as many of them as the limit keep the text whole,
      although the brace is then at a character index below the limit. */
  lemma WideLeadInWhole(pre: string, rest: string)
    requires |pre| * 2 >= BraceLimit && forall k :: 0 <= k < |pre| ==> pre[k] as int > 0xFFFF
    requires Free(rest, '`')
    ensures WorkingText(pre + rest) == pre + rest
  {
    var s := pre + rest;
    forall k | 0 <= k < |s| ensures s[k] != '`' {
      if k < |pre| { assert s[k] == pre[k]; } else { assert s[k] == rest[k - |pre|]; }
    }
    NoFence(s);
    var f := FindChar(s, '{', 0);
    if f.Some? {
      var p := s[..f.value];
      assert forall k :: 0 <= k < |pre| ==> s[k] == pre[k];
      assert f.value >= |pre|;
      assert p == pre + p[|pre|..];
      Utf16LengthWide(pre);
      Utf16LengthAppend(pre, p[|pre|..]);
    }
  }

  /** Text with no fence whose first `{` comes early and whose last `}` comes
      after it is cut down to the span between them. */
  lemma WorkingTextBraced(pre: string, body: string, post: string)
    requires Free(pre + "{" + body + "}" + post, '`')
    requires Utf16Length(pre) < BraceLimit && Free(pre, '{') && Free(post, '}')
    ensures WorkingText(pre + "{" + body + "}" + post) == "{" + body + "}"
  {
    var s := pre + "{" + body + "}" + post;
    NoFence(s);
    var f, l := |pre|, |pre| + |body| + 1;
    assert s[..f] == pre;
    assert s[f] == '{' && s[l] == '}';
    forall k | 0 <= k < f ensures s[k] != '{' { assert s[k] == pre[k]; }
    forall k | l < k < |s| ensures s[k] != '}' { assert s[k] == post[k - l - 1]; }
    assert FindChar(s, '{', 0) == Some(f);
    assert LastIndexBefore(s, '}', |s|) == Some(l);
    assert s[f..l + 1] == "{" + body + "}";
  }

  /** An occurrence with none before it, from `from` on, is what indexOf finds. */
  lemma IndexOfAt(s: string, pat: string, from: nat, i: nat)
    requires from <= i && OccursAt(s, pat, i)
    requires forall k :: from <= k < i ==> !OccursAt(s, pat, k)
    ensures IndexOfFrom(s, pat, from) == Some(i)
  {
  }

  /** Where the fence of `pre + FenceOpen + x + FenceClose + post` is found. */
  lemma FenceFound(pre: string, x: string, post: string)
    requires Free(pre, '`') && Free(x, '`')
    ensures var s := pre + FenceOpen + x + FenceClose + post;
      FenceMatch(s) == Some((|pre|, |pre| + 7 + |x|)) && s[|pre| + 7..|pre| + 7 + |x|] == x
  {
    var s := pre + FenceOpen + x + FenceClose + post;
    var p, t := |pre|, |pre| + 7 + |x|;
    assert s[p..p + 7] == FenceOpen;
    assert s[t..t + 3] == FenceClose;
    assert s[p + 7..t] == x;
    forall k | 0 <= k < p ensures !OccursAt(s, FenceOpen, k) {
      assert s[k] == pre[k];
      if OccursAt(s, FenceOpen, k) { OccursHead(s, FenceOpen, k); }
    }
    IndexOfAt(s, FenceOpen, 0, p);
    forall k | p + 7 <= k < t ensures !OccursAt(s, FenceClose, k) {
      assert s[k] == x[k - p - 7];
      if OccursAt(s, FenceClose, k) { OccursHead(s, FenceClose, k); }
    }
    IndexOfAt(s, FenceClose, p + 7, t);
  }

  /** With a fence, the working text is its trimmed interior. */
  lemma WorkingOfFence(s: string, p: nat, t: nat)
    requires FenceMatch(s) == Some((p, t))
    ensures p + |FenceOpen| <= t <= |s|
    ensures WorkingText(s) == Trim(s[p + |FenceOpen|..t])
  {
  }

  /** A ```json fence takes precedence over everything around it: its
      interior, trimmed, is the text decoded. */
  lemma WorkingTextFenced(pre: string, x: string, post: string)
    requires Free(pre, '`') && Free(x, '`')
    ensures WorkingText(pre + FenceOpen + x + FenceClose + post) == Trim(x)
  {
    FenceFound(pre, x, post);
    WorkingOfFence(pre + FenceOpen + x + FenceClose + post, |pre|, |pre| + 7 + |x|);
  }

  /** Text without a double quote can only be decoded by the strict parse:
      neither the narrative regex nor the salvage can apply to it. */
  lemma QuotelessIsNull(content: string, parse: string -> Option<JsonValue>)
    requires Free(content, '"')
    requires !AcceptsStrict(parse(WorkingText(content)))
    ensures Decode(content, parse) == None
  {
    var w := WorkingText(content);
    var i :| OccursAt(content, w, i);
    FreePiece(content, w, i, '"');
    forall h | Shape(w, NarrativeString, h) ensures false {
      KeyQuotes(w, NarrativeString, h);
    }
    forall m | OccursAt(w, OptionsMarker, m) ensures false {
      OccursHead(w, OptionsMarker, m);
    }
  }

  /** Whitespace-only content (the empty string included) decodes to null
      unless the parser accepts it. */
  lemma BlankIsNull(content: string, parse: string -> Option<JsonValue>)
    requires forall k :: 0 <= k < |content| ==> IsSpace(content[k])
    requires !AcceptsStrict(parse(content))
    ensures Decode(content, parse) == None
  {
    WorkingTextWhole(content);
    QuotelessIsNull(content, parse);
  }

  /** The turn object after a prose lead-in holds no backtick when its
      narrative and options hold none. */
  lemma TurnFree(pre: string, n: string, xs: seq<string>, c: char)
    requires Free(pre, c) && Free(n, c) && forall k :: 0 <= k < |xs| ==> Free(xs[k], c)
    requires c == '`'
    ensures Free(pre + TurnObject(n, xs), c)
  {
    EscapeFree(n, c);
    ItemsFree(xs, c);
    var e, items := Escape(n), Items(xs);
    ObjectPieces("", e, items);
    assert TurnObject(n, xs) == "{" + Quoted("narrative") + ":\"" + e + "\"," + Quoted("options") + ":[" + items + "]}";
    FreeConcat("{" + Quoted("narrative") + ":\"", e, c);
    FreeConcat("{" + Quoted("narrative") + ":\"" + e, "\"," + Quoted("options") + ":[", c);
    FreeConcat("{" + Quoted("narrative") + ":\"" + e + "\"," + Quoted("options") + ":[", items, c);
    FreeConcat("{" + Quoted("narrative") + ":\"" + e + "\"," + Quoted("options") + ":[" + items, "]}", c);
    FreeConcat(pre, TurnObject(n, xs), c);
  }

  /** A lead-in of at least BraceLimit characters keeps the brace heuristic
      from isolating the object, and the strict parse of the whole text is
      what fails. */
  lemma LeadInDecodedWhole(pre: string, n: string, xs: seq<string>)
    requires |pre| >= BraceLimit && Free(pre, '{') && Free(pre, '`')
    requires Free(n, '`') && forall k :: 0 <= k < |xs| ==> Free(xs[k], '`')
    ensures WorkingText(pre + TurnObject(n, xs)) == pre + TurnObject(n, xs)
  {
    var w := pre + TurnObject(n, xs);
    TurnFree(pre, n, xs, '`');
    forall k | 0 <= k < |w| && k < BraceLimit ensures w[k] != '{' {
      assert w[k] == pre[k];
    }
    WorkingTextWhole(w);
  }

  /** The central recovery property: a turn written as a JSON object after a
      prose lead-in long enough to defeat the brace heuristic, which the
      strict parse therefore rejects, is recovered exactly, narrative and
      options, by the narrative regex and the options scan. */
  lemma LeadInTurnRecovered(pre: string, n: string, xs: seq<string>, parse: string -> Option<JsonValue>)
    requires |pre| >= BraceLimit && Free(pre, '{') && Free(pre, '`') && Free(pre, '"')
    requires n != "" && NoBackslash(n) && NoOtherControl(n) && Free(n, '`')
    requires forall k :: 0 <= k < |xs| ==>
               && NoBackslash(xs[k]) && Free(xs[k], '\n') && NoOtherControl(xs[k])
               && Free(xs[k], ']') && Free(xs[k], '`')
    requires !AcceptsStrict(parse(pre + TurnObject(n, xs)))
    ensures Decode(pre + TurnObject(n, xs), parse) == Some(Recovered(n, xs))
  {
    LeadInDecodedWhole(pre, n, xs);
    TurnNarrative(pre, n, xs);
    TurnOptions(pre, n, xs);
  }

  /** A turn whose narrative is empty decodes to null once the strict parse
      fails: the regex's empty match is falsy and the salvage is not tried. */
  lemma EmptyNarrativeIsNull(pre: string, xs: seq<string>, parse: string -> Option<JsonValue>)
    requires |pre| >= BraceLimit && Free(pre, '{') && Free(pre, '`') && Free(pre, '"')
    requires forall k :: 0 <= k < |xs| ==> Free(xs[k], '`')
    requires !AcceptsStrict(parse(pre + TurnObject("", xs)))
    ensures Decode(pre + TurnObject("", xs), parse) == None
  {
    LeadInDecodedWhole(pre, "", xs);
    TurnNarrative(pre, "", xs);
  }

  /** A twenty-five character lead-in before a complete turn object. */
  const PaddedTurn: string :=
    "The story continues here:" + ("{" + Quoted("narrative") + ":\"" + "hi" + "\"," + Quoted("options") + ":[" + "\"go\"" + "]}")

  /** The object of the padded turn is the one JSON.stringify writes. */
  lemma PaddedTurnObject()
    ensures PaddedTurn == "The story continues here:" + TurnObject("hi", ["go"])
  {
    assert Escape("hi") == "hi";
    assert Escape("go") == "go";
    assert Literal("go") == "\"go\"";
    assert Literals(["go"]) == ["\"go\""];
    assert Items(["go"]) == "\"go\"";
    assert TurnObject("hi", ["go"]) == ObjectText("hi", "\"go\"");
  }

  /** The padded turn: the brace heuristic declines it, the strict parse of
      the whole text fails, and the regex recovery still yields the
      narrative `hi` and the options `[go]`. */
  lemma PaddedTurnRecovered(parse: string -> Option<JsonValue>)
    requires !AcceptsStrict(parse(PaddedTurn))
    ensures Decode(PaddedTurn, parse) == Some(Recovered("hi", ["go"]))
  {
    var pre := "The story continues here:";
    PaddedTurnObject();
    assert Free(pre, '{') && Free(pre, '`') && Free(pre, '"');
    assert Free("hi", '`') && Free("go", '`') && Free("go", '\n') && Free("go", ']');
    assert NoBackslash("hi") && NoBackslash("go") && NoOtherControl("hi") && NoOtherControl("go");
    LeadInTurnRecovered(pre, "hi", ["go"], parse);
  }

  /** Text without quotes and backslashes is a string body. */
  lemma PlainBody(t: string)
    requires Free(t, '"') && NoBackslash(t)
    ensures StringBody(t)
  {
    PlainThenBody(t, "");
    assert t + "" == t;
  }

  /** A turn cut off after its narrative's last word, without the closing
      quote, and continued with the options key and an unclosed list. */
  function Unclosed(body: string): string {
    "{" + Quoted("narrative") + ": \"" + body + Quoted("options") + ": ["
  }

  /** The frame of an unclosed turn holds no backtick and no closing brace or
      bracket, so the turn holds one only where its body does. */
  lemma UnclosedFree(body: string, c: char)
    requires Free(body, c) && (c == '`' || c == '}' || c == ']')
    ensures Free(Unclosed(body), c)
  {
    var w := Unclosed(body);
    forall k | 0 <= k < |w| ensures w[k] != c {
      if 15 <= k < 15 + |body| {
        assert w[k] == body[k - 15];
      }
    }
  }

  /** An unclosed turn without backticks or closing braces is decoded whole. */
  lemma UnclosedWhole(body: string)
    requires Free(body, '`') && Free(body, '}')
    ensures WorkingText(Unclosed(body)) == Unclosed(body)
  {
    UnclosedFree(body, '`');
    UnclosedFree(body, '}');
    NoFence(Unclosed(body));
  }

  /** The narrative regex's match in an unclosed turn runs to the opening
      quote of `"options"`. */
  lemma UnclosedShape(body: string)
    requires Free(body, '"') && NoBackslash(body)
    ensures var w := Unclosed(body);
      && Shape(w, NarrativeString, Hit(1, 12, 14, 15 + |body|))
      && w[0] == '{' && w[15..15 + |body|] == body
  {
    var w := Unclosed(body);
    var E := 15 + |body|;
    assert w[1..12] == Quoted("narrative");
    assert w[12] == ':' && w[13] == ' ' && w[14] == '"' && w[E] == '"';
    assert KeyShape(w, "narrative", '"', Hit(1, 12, 14, E)) by {
      assert OccursAt(w, Quoted("narrative"), 1);
      assert IsSpace(w[13]);
    }
    assert w[15..E] == body;
    PlainBody(body);
    NarrativeValueShape(w, 14, E, body);
    ShapeOfParts(w, NarrativeString, Hit(1, 12, 14, E));
  }

  /** A narrative match right after the opening brace is the leftmost one. */
  lemma FrontHit(w: string, h: Hit)
    requires Shape(w, NarrativeString, h) && h.key == 1 && w[0] != '"'
    ensures Search(w, NarrativeString) == Some(h)
  {
    forall g {:trigger Shape(w, NarrativeString, g)} | Shape(w, NarrativeString, g) ensures h.key <= g.key {
      KeyQuotes(w, NarrativeString, g);
    }
    SearchLeftmost(w, NarrativeString, h);
  }

  /** The narrative the regex's match gives. */
  lemma NarrativeOfHit(w: string, h: Hit)
    requires Search(w, NarrativeString) == Some(h)
    ensures h.open < h.close <= |w|
    ensures RecoverNarrative(w) == NarrativeFrom(w, Some(h))
  {
  }

  /** A narrative match right after the opening brace gives its body, which
      without backslashes comes out unchanged. */
  lemma NarrativeAtFront(w: string, h: Hit, body: string)
    requires Shape(w, NarrativeString, h) && h.key == 1 && w[0] != '"'
    requires w[h.open + 1..h.close] == body && NoBackslash(body)
    ensures RecoverNarrative(w) == Some(body)
  {
    FrontHit(w, h);
    NarrativeOfHit(w, h);
    UnescapePlain(body);
  }

  /** The narrative of an unclosed turn is everything up to the options key's
      opening quote, so the salvage is never reached. */
  lemma UnclosedNarrative(body: string)
    requires Free(body, '"') && NoBackslash(body)
    ensures RecoverNarrative(Unclosed(body)) == Some(body)
  {
    UnclosedShape(body);
    NarrativeAtFront(Unclosed(body), Hit(1, 12, 14, 15 + |body|), body);
  }

  /** No `]` follows the options key of an unclosed turn. */
  lemma UnclosedNoOptions(body: string)
    requires Free(body, ']')
    ensures ExtractOptions(Unclosed(body)) == []
  {
    var w := Unclosed(body);
    UnclosedFree(body, ']');
    forall h {:trigger Shape(w, OptionsArray, h)} | Shape(w, OptionsArray, h) ensures false {
    }
  }

  /** An unclosed turn the strict parse rejects is recovered with the text
      between the narrative's opening quote and the options key, and no
      options. */
  lemma UnclosedDecoded(body: string, parse: string -> Option<JsonValue>)
    requires body != "" && Free(body, '"') && NoBackslash(body)
    requires Free(body, '`') && Free(body, '}') && Free(body, ']')
    requires !AcceptsStrict(parse(Unclosed(body)))
    ensures Decode(Unclosed(body), parse) == Some(Recovered(body, []))
  {
    UnclosedWhole(body);
    UnclosedNarrative(body);
    UnclosedNoOptions(body);
  }

  /** The truncated turn: its narrative ends in a full stop, and the comma
      and the space that follow it are kept. */
  const TruncatedTurn: string := Unclosed("You open the door., ")

  lemma TruncatedTurnDecoded(parse: string -> Option<JsonValue>)
    requires !AcceptsStrict(parse(TruncatedTurn))
    ensures Decode(TruncatedTurn, parse) == Some(Recovered("You open the door., ", []))
  {
    var body := "You open the door., ";
    assert Free(body, '"') && NoBackslash(body);
    assert Free(body, '`') && Free(body, '}') && Free(body, ']');
    UnclosedDecoded(body, parse);
  }
}
