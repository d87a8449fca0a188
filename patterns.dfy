/** Hand-written matchers for the four regular expressions the decoder in
    MessageHistory.tsx applies to the model's output. Each pattern has a
    declarative shape (what a match looks like) and a scanner whose contract
    says it finds the leftmost match, and that at that position the match is
    the only one, so it is the one the JavaScript engine reports. */
module Patterns {

  import opened Wrappers
  import opened Text

  /** The language of `(?:[^"\\]|\\.)*`: no bare quote, and every backslash
      escapes the next character, which must not be a line terminator. */
  predicate StringBody(t: string)
    decreases |t|
  {
    if t == [] then true
    else if t[0] == '"' then false
    else if t[0] == '\\' then |t| >= 2 && !IsLineTerminator(t[1]) && StringBody(t[2..])
    else StringBody(t[1..])
  }

  /** The string body that starts at `i` ends with the quote at `e`. */
  predicate BodyEndsAt(s: string, i: nat, e: nat) {
    i <= e < |s| && s[e] == '"' && StringBody(s[i..e])
  }

  /** Scans a string body starting at `i`; the index of the quote that ends it. */
  function BodyEnd(s: string, i: nat): (r: Option<nat>)
    requires i <= |s|
    ensures r.Some? ==> BodyEndsAt(s, i, r.value)
    ensures forall e :: BodyEndsAt(s, i, e) ==> r.Some? && r.value == e
    decreases |s| - i
  {
    if i == |s| then None
    else if s[i] == '"' then Some(i)
    else if s[i] == '\\' then
      (if i + 1 < |s| && !IsLineTerminator(s[i + 1]) then BodyStep(s, i, 2); BodyEnd(s, i + 2) else None)
    else BodyStep(s, i, 1); BodyEnd(s, i + 1)
  }

  /** Past an ordinary character, or a backslash and the character it
      escapes, a body ends where the rest of it ends. */
  lemma BodyStep(s: string, i: nat, d: nat)
    requires i < |s|
    requires || (d == 1 && s[i] != '"' && s[i] != '\\')
             || (d == 2 && s[i] == '\\' && i + 1 < |s| && !IsLineTerminator(s[i + 1]))
    ensures forall e: nat :: BodyEndsAt(s, i, e) <==> BodyEndsAt(s, i + d, e)
  {
    forall e: nat ensures BodyEndsAt(s, i, e) <==> BodyEndsAt(s, i + d, e) {
      if i + d <= e < |s| {
        assert s[i..e][d..] == s[i + d..e];
      }
    }
  }

  /** The first position after `i` that is not whitespace is unique. */
  lemma SkipSpaceUnique(s: string, i: nat, j: nat)
    requires i <= j < |s| && AllSpace(s, i, j) && !IsSpace(s[j])
    ensures SkipSpace(s, i) == j
  {
  }

  function Quoted(key: string): string {
    "\"" + key + "\""
  }

  datatype Pattern =
    | NarrativeKey     // /"narrative"\s*:\s*"/
    | NarrativeString  // /"narrative"\s*:\s*"((?:[^"\\]|\\.)*)"/
    | OptionsArray     // /"options"\s*:\s*\[([\s\S]*?)\]/

  function KeyOf(pat: Pattern): string {
    if pat.OptionsArray? then "options" else "narrative"
  }

  function OpenerOf(pat: Pattern): char {
    if pat.OptionsArray? then '[' else '"'
  }

  /** Where a match sits: the key's opening quote, the colon, the opening quote
      or bracket of the value, and the quote or bracket that closes it (for
      NarrativeKey, which has no value, `close` is `open`). */
  datatype Hit = Hit(key: nat, colon: nat, open: nat, close: nat)

  /** `"key"`, whitespace, `:`, whitespace, then the opener. */
  predicate KeyShape(s: string, key: string, opener: char, h: Hit) {
    var q := Quoted(key);
    && OccursAt(s, q, h.key)
    && h.key + |q| <= h.colon < h.open < |s|
    && AllSpace(s, h.key + |q|, h.colon) && s[h.colon] == ':'
    && AllSpace(s, h.colon + 1, h.open) && s[h.open] == opener
  }

  /** What the value of a match looks like, from its opener at `open` to the
      character at `close`. For NarrativeString it is a string body up to its
      first unescaped quote; for OptionsArray the group runs lazily to the
      first `]` after the `[`. */
  predicate ValueShape(s: string, pat: Pattern, open: nat, close: nat) {
    match pat
    case NarrativeKey => close == open
    case NarrativeString => open < close && BodyEndsAt(s, open + 1, close)
    case OptionsArray =>
      open < close < |s| && s[close] == ']' && forall k :: open < k < close ==> s[k] != ']'
  }

  /** What a match of `pat` looks like. */
  predicate Shape(s: string, pat: Pattern, h: Hit) {
    KeyShape(s, KeyOf(pat), OpenerOf(pat), h) && ValueShape(s, pat, h.open, h.close)
  }

  /** The colon and the opener of a `"key"\s*:\s*<opener>` match at `p`. */
  function KeyAt(s: string, key: string, opener: char, p: nat): (r: Option<(nat, nat)>)
    requires !IsSpace(opener)
    ensures r.Some? ==> KeyShape(s, key, opener, Hit(p, r.value.0, r.value.1, 0))
    ensures forall h: Hit {:trigger KeyShape(s, key, opener, h)} :: h.key == p && KeyShape(s, key, opener, h) ==>
              r.Some? && r.value == (h.colon, h.open)
  {
    var q := Quoted(key);
    if !OccursAt(s, q, p) then None
    else
      var a := SkipSpace(s, p + |q|);
      if a == |s| || s[a] != ':' then None
      else
        var b := SkipSpace(s, a + 1);
        if b == |s| || s[b] != opener then None
        else Some((a, b))
  }

  /** The end of the value whose opener is at `open`. */
  function ValueEnd(s: string, pat: Pattern, open: nat): (r: Option<nat>)
    requires open < |s|
    ensures r.Some? ==> ValueShape(s, pat, open, r.value)
    ensures forall e: nat :: ValueShape(s, pat, open, e) ==> r.Some? && r.value == e
  {
    match pat
    case NarrativeKey => Some(open)
    case NarrativeString => BodyEnd(s, open + 1)
    case OptionsArray => FindChar(s, ']', open + 1)
  }

  /** The match of `pat` that starts at index `p`, if any; it is unique. */
  function MatchAt(s: string, pat: Pattern, p: nat): (r: Option<Hit>)
    ensures r.Some? ==> r.value.key == p && Shape(s, pat, r.value)
    ensures forall h: Hit {:trigger Shape(s, pat, h)} :: h.key == p && Shape(s, pat, h) ==>
              r.Some? && r.value == h
  {
    match KeyAt(s, KeyOf(pat), OpenerOf(pat), p)
    case None => None
    case Some((a, b)) =>
      match ValueEnd(s, pat, b)
      case None => None
      case Some(e) => Some(Hit(p, a, b, e))
  }

  /** The leftmost match of `pat` starting at or after `from`. */
  function FirstMatch(s: string, pat: Pattern, from: nat): (r: Option<Hit>)
    ensures r.Some? ==> from <= r.value.key && Shape(s, pat, r.value)
    ensures forall h: Hit {:trigger Shape(s, pat, h)} :: from <= h.key && Shape(s, pat, h) ==>
              r.Some? && (r.value.key < h.key || r.value == h)
    decreases |s| - from
  {
    if from > |s| then None
    else
      match MatchAt(s, pat, from)
      case Some(h) => Some(h)
      case None => FirstMatch(s, pat, from + 1)
  }

  /** `s.match(re)` for one of the patterns: the leftmost match in `s`. */
  function Search(s: string, pat: Pattern): (r: Option<Hit>)
    ensures r.Some? ==> Shape(s, pat, r.value)
    ensures r.None? <==> forall h :: !Shape(s, pat, h)
    ensures forall h {:trigger Shape(s, pat, h)} :: Shape(s, pat, h) ==>
              r.Some? && (r.value.key < h.key || r.value == h)
  {
    FirstMatch(s, pat, 0)
  }

  /** A match with no other match to its left is the one `Search` reports. */
  lemma SearchLeftmost(s: string, pat: Pattern, h: Hit)
    requires Shape(s, pat, h)
    requires forall g {:trigger Shape(s, pat, g)} :: Shape(s, pat, g) ==> h.key <= g.key
    ensures Search(s, pat) == Some(h)
  {
  }

  /** A literal matched by `/"((?:[^"\\]|\\.)*)"/` at the front of `s`: the
      index of its closing quote. */
  function LiteralEnd(s: string): (r: Option<nat>)
    ensures r.Some? ==> s != [] && s[0] == '"' && BodyEndsAt(s, 1, r.value)
    ensures forall e :: s != [] && s[0] == '"' && BodyEndsAt(s, 1, e) ==> r.Some? && r.value == e
  {
    if s != [] && s[0] == '"' then BodyEnd(s, 1) else None
  }

  /** `s.match(/"((?:[^"\\]|\\.)*)"/g)` with the quotes removed from each
      match: the global scan tries each start position in turn and resumes
      after the closing quote of every literal it finds. */
  function LiteralBodies(s: string): (r: seq<string>)
    ensures 2 * |r| <= |s|
    decreases |s|
  {
    if s == [] then []
    else
      match LiteralEnd(s)
      case Some(e) => [s[1..e]] + LiteralBodies(s[e + 1..])
      case None => LiteralBodies(s[1..])
  }

  /** Every literal the scan finds is a well-formed string body. */
  lemma {:induction false} LiteralBodiesAreBodies(s: string)
    ensures forall k :: 0 <= k < |LiteralBodies(s)| ==> StringBody(LiteralBodies(s)[k])
    decreases |s|
  {
    if s != [] {
      match LiteralEnd(s)
      case Some(e) => LiteralBodiesAreBodies(s[e + 1..]);
      case None => LiteralBodiesAreBodies(s[1..]);
    }
  }

  /** Text without quotes contributes no literal. */
  lemma {:induction false} LiteralBodiesSkip(t: string, rest: string)
    requires forall k :: 0 <= k < |t| ==> t[k] != '"'
    ensures LiteralBodies(t + rest) == LiteralBodies(rest)
    decreases |t|
  {
    if t != [] {
      assert (t + rest)[0] == t[0];
      assert LiteralEnd(t + rest).None?;
      assert (t + rest)[1..] == t[1..] + rest;
      assert LiteralBodies(t + rest) == LiteralBodies(t[1..] + rest);
      LiteralBodiesSkip(t[1..], rest);
    } else {
      assert t + rest == rest;
    }
  }

  /** A literal `"body"` in front of `rest` is found whole. */
  lemma LiteralBodiesFront(body: string, rest: string)
    requires StringBody(body)
    ensures LiteralBodies("\"" + body + "\"" + rest) == [body] + LiteralBodies(rest)
  {
    var s := "\"" + body + "\"" + rest;
    var e := |body| + 1;
    assert s[1..e] == body && s[e] == '"';
    assert BodyEndsAt(s, 1, e);
    assert s[e + 1..] == rest;
  }
}
