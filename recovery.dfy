/** What the decoder's recovery paths recover. The central case is a turn that
    the model wrote as a proper JSON object but preceded with prose, so that
    the strict parse rejects it: the narrative regex and the options scan
    still recover the narrative and the options exactly. */
module Recovery {

  import opened Wrappers
  import opened Text
  import opened Json
  import opened Escapes
  import opened Patterns
  import opened Api
  import opened Decoder

  /** `c` does not occur in `s`. */
  predicate Free(s: string, c: char) {
    forall k :: 0 <= k < |s| ==> s[k] != c
  }

  /** Every quote in `s` is escaped by the character before it. */
  predicate QuotesEscaped(s: string) {
    forall j :: 0 <= j < |s| && s[j] == '"' ==> 0 < j && s[j - 1] == Backslash
  }

  /** A JSON string literal. */
  function Literal(x: string): string {
    "\"" + Escape(x) + "\""
  }

  function Literals(xs: seq<string>): (r: seq<string>)
    ensures |r| == |xs| && forall k :: 0 <= k < |xs| ==> r[k] == Literal(xs[k])
  {
    seq(|xs|, k requires 0 <= k < |xs| => Literal(xs[k]))
  }

  function EscapedAll(xs: seq<string>): (r: seq<string>)
    ensures |r| == |xs| && forall k :: 0 <= k < |xs| ==> r[k] == Escape(xs[k])
  {
    seq(|xs|, k requires 0 <= k < |xs| => Escape(xs[k]))
  }

  /** The option list `"a","b"` as JSON.stringify writes it. */
  function Items(xs: seq<string>): string {
    Join(Literals(xs), ",")
  }

  /** `{narrative, options}` as JSON.stringify writes it. */
  function TurnObject(n: string, xs: seq<string>): string {
    ObjectText(Escape(n), Items(xs))
  }

  lemma EscapeFront(c: char, t: string)
    ensures Escape([c] + t) == EscapeChar(c) + Escape(t)
  {
    assert ([c] + t)[0] == c && ([c] + t)[1..] == t;
  }

  /** Text without quotes and backslashes, in front of a string body, keeps
      it a string body. */
  lemma {:induction false} PlainThenBody(p: string, t: string)
    requires Free(p, '"') && NoBackslash(p) && StringBody(t)
    ensures StringBody(p + t)
    decreases |p|
  {
    if p == [] {
      assert p + t == t;
    } else {
      assert Free(p[1..], '"') && NoBackslash(p[1..]) by {
        forall k | 0 <= k < |p| - 1 ensures p[1..][k] == p[k + 1] {}
      }
      PlainThenBody(p[1..], t);
      var s := p + t;
      assert s[0] == p[0] && p[0] != '"' && p[0] != Backslash;
      assert s[1..] == p[1..] + t;
    }
  }

  /** One character's escape in front of a string body keeps it a string
      body. */
  lemma EscapeCharBody(c: char, t: string)
    requires StringBody(t)
    ensures StringBody(EscapeChar(c) + t)
  {
    var e := EscapeChar(c);
    var s := e + t;
    if |e| == 1 {
      assert s[1..] == t;
    } else {
      var p := e[2..];
      assert Free(p, '"') && NoBackslash(p) by {
        forall k | 0 <= k < |p| ensures p[k] == e[k + 2] {}
      }
      PlainThenBody(p, t);
      assert s[0] == Backslash && !IsLineTerminator(s[1]) && s[2..] == p + t;
    }
  }

  /** A JSON-escaped string is always a body the narrative regex accepts. */
  lemma {:induction false} EscapeIsBody(x: string)
    ensures StringBody(Escape(x))
    decreases |x|
  {
    if x != [] {
      EscapeIsBody(x[1..]);
      EscapeCharBody(x[0], Escape(x[1..]));
    }
  }

  lemma QuotesEscapedConcat(a: string, b: string)
    requires QuotesEscaped(a) && QuotesEscaped(b)
    ensures QuotesEscaped(a + b)
  {
    var s := a + b;
    forall j | 0 <= j < |s| && s[j] == '"' ensures 0 < j && s[j - 1] == Backslash {
      if j < |a| {
        assert s[j] == a[j];
        if 0 < j { assert s[j - 1] == a[j - 1]; }
      } else {
        assert s[j] == b[j - |a|];
        assert s[j - 1] == b[j - |a| - 1];
      }
    }
  }

  /** In a JSON-escaped string every quote is escaped. */
  lemma {:induction false} EscapeQuotesEscaped(x: string)
    ensures QuotesEscaped(Escape(x))
    decreases |x|
  {
    if x != [] {
      EscapeQuotesEscaped(x[1..]);
      var e := EscapeChar(x[0]);
      assert QuotesEscaped(e) by {
        forall j | 0 <= j < |e| && e[j] == '"' ensures 0 < j && e[j - 1] == Backslash {
          assert |e| > 1 && j == 1;
        }
      }
      QuotesEscapedConcat(e, Escape(x[1..]));
    }
  }

  lemma FreeConcat(a: string, b: string, c: char)
    requires Free(a, c) && Free(b, c)
    ensures Free(a + b, c)
  {
    var s := a + b;
    forall k | 0 <= k < |s| ensures s[k] != c {
      if k < |a| { assert s[k] == a[k]; } else { assert s[k] == b[k - |a|]; }
    }
  }

  /** Escaping adds only backslashes, quotes, lower-case letters and
      digits. */
  lemma {:induction false} EscapeFree(x: string, c: char)
    requires Free(x, c) && !EscapeSyntax(c)
    ensures Free(Escape(x), c)
    decreases |x|
  {
    if x != [] {
      EscapeFree(x[1..], c);
      assert x[0] != c;
      FreeConcat(EscapeChar(x[0]), Escape(x[1..]), c);
    }
  }

  lemma {:induction false} JoinFree(ys: seq<string>, sep: string, c: char)
    requires forall k :: 0 <= k < |ys| ==> Free(ys[k], c)
    requires Free(sep, c)
    ensures Free(Join(ys, sep), c)
    decreases |ys|
  {
    if |ys| > 1 {
      JoinFree(ys[1..], sep, c);
      FreeConcat(ys[0], sep, c);
      FreeConcat(ys[0] + sep, Join(ys[1..], sep), c);
    }
  }

  /** The option items hold no `c` when the options hold none. */
  lemma ItemsFree(xs: seq<string>, c: char)
    requires forall k :: 0 <= k < |xs| ==> Free(xs[k], c)
    requires !EscapeSyntax(c) && c != ','
    ensures Free(Items(xs), c)
  {
    var ls := Literals(xs);
    forall k | 0 <= k < |ls| ensures Free(ls[k], c) {
      EscapeFree(xs[k], c);
      FreeConcat("\"", Escape(xs[k]), c);
      FreeConcat("\"" + Escape(xs[k]), "\"", c);
    }
    JoinFree(ls, ",", c);
  }

  /** Without control characters and backslashes, JSON escaping only
      escapes quotes. */
  lemma {:induction false} EscapeOnlyQuotes(x: string)
    requires Free(x, '\n') && NoBackslash(x) && NoOtherControl(x)
    ensures Escape(x) == EscapeQuotes(x)
    decreases |x|
  {
    if x != [] {
      assert Free(x[1..], '\n') && NoBackslash(x[1..]) && NoOtherControl(x[1..]) by {
        forall k | 0 <= k < |x[1..]| ensures x[1..][k] != '\n' && x[1..][k] != Backslash && !OtherControl(x[1..][k]) {
          assert x[1..][k] == x[k + 1];
        }
      }
      EscapeOnlyQuotes(x[1..]);
    }
  }

  /** A list of two or more options: the first literal, a comma, the rest. */
  lemma ItemsCons(xs: seq<string>)
    requires |xs| >= 2
    ensures Items(xs) == "\"" + Escape(xs[0]) + "\"" + ("," + Items(xs[1..]))
  {
    var ls := Literals(xs);
    assert ls[1..] == Literals(xs[1..]);
  }

  /** The global literal scan over the option items finds each option's
      escaped text, in order. */
  lemma {:induction false} ItemsBodies(xs: seq<string>)
    ensures LiteralBodies(Items(xs)) == EscapedAll(xs)
    decreases |xs|
  {
    if |xs| == 1 {
      ItemsBodiesOne(xs);
    } else if |xs| >= 2 {
      ItemsBodies(xs[1..]);
      ItemsBodiesCons(xs);
    }
  }

  lemma ItemsBodiesOne(xs: seq<string>)
    requires |xs| == 1
    ensures LiteralBodies(Items(xs)) == EscapedAll(xs)
  {
    var e := Escape(xs[0]);
    EscapeIsBody(xs[0]);
    assert Items(xs) == "\"" + e + "\"" + "";
    LiteralBodiesFront(e, "");
    assert EscapedAll(xs) == [e];
  }

  lemma ItemsBodiesCons(xs: seq<string>)
    requires |xs| >= 2 && LiteralBodies(Items(xs[1..])) == EscapedAll(xs[1..])
    ensures LiteralBodies(Items(xs)) == EscapedAll(xs)
  {
    var e := Escape(xs[0]);
    EscapeIsBody(xs[0]);
    ItemsCons(xs);
    LiteralThenComma(e, Items(xs[1..]));
    assert EscapedAll(xs) == [e] + EscapedAll(xs[1..]);
  }

  /** A literal, a comma and more items: the scan finds the literal's body,
      then the literals of the rest. */
  lemma LiteralThenComma(e: string, rest: string)
    requires StringBody(e)
    ensures LiteralBodies("\"" + e + "\"" + ("," + rest)) == [e] + LiteralBodies(rest)
  {
    LiteralBodiesFront(e, "," + rest);
    LiteralBodiesSkip(",", rest);
  }

  /** Options without backslashes and control characters come back
      unchanged. */
  lemma ItemsValues(xs: seq<string>)
    requires forall k :: 0 <= k < |xs| ==> NoBackslash(xs[k]) && Free(xs[k], '\n') && NoOtherControl(xs[k])
    ensures ScanSpan(Items(xs)) == xs
  {
    ItemsBodies(xs);
    var r := OptionValues(EscapedAll(xs));
    forall k | 0 <= k < |xs| ensures r[k] == xs[k] {
      EscapeOnlyQuotes(xs[k]);
      UnescapeQuotesEscapeQuotes(xs[k]);
    }
  }

  /** A match of any pattern starts with the quoted key. */
  lemma KeyQuotes(s: string, pat: Pattern, h: Hit)
    requires Shape(s, pat, h)
    ensures h.key + |KeyOf(pat)| + 2 <= |s|
    ensures s[h.key] == '"' && s[h.key + 1 + |KeyOf(pat)|] == '"'
    ensures s[h.key + 1..h.key + 1 + |KeyOf(pat)|] == KeyOf(pat)
  {
    var q := Quoted(KeyOf(pat));
    assert s[h.key..h.key + |q|] == q;
    assert s[h.key] == q[0];
    assert s[h.key + 1 + |KeyOf(pat)|] == q[|q| - 1];
    var K := KeyOf(pat);
    forall i | 0 <= i < |K| ensures s[h.key + 1 + i] == K[i] {
      assert s[h.key + 1 + i] == s[h.key..h.key + |q|][1 + i];
    }
    assert s[h.key + 1..h.key + 1 + |K|] == K;
  }

  /** The turn object around a given narrative text and given items. */
  function ObjectText(e: string, items: string): string {
    "{" + Quoted("narrative") + ":\"" + e + "\"," + Quoted("options") + ":[" + items + "]}"
  }

  /** `w` holds, from index `P` on, a turn object around `e` and `items`,
      preceded by text without quotes. */
  predicate Laid(w: string, P: nat, e: string, items: string) {
    var C := P + 14 + |e|;
    && |w| == C + 15 + |items|
    && (forall k :: 0 <= k < P ==> w[k] != '"')
    && w[P] == '{' && OccursAt(w, Quoted("narrative"), P + 1)
    && w[P + 12] == ':' && w[P + 13] == '"'
    && w[P + 14..C] == e
    && w[C] == '"' && w[C + 1] == ','
    && OccursAt(w, Quoted("options"), C + 2)
    && w[C + 11] == ':' && w[C + 12] == '['
    && w[C + 13..C + 13 + |items|] == items
    && w[C + 13 + |items|] == ']'
  }

  /** `pre + ObjectText(e, items)`, grouped from the left. */
  lemma ObjectPieces(pre: string, e: string, items: string)
    ensures pre + ObjectText(e, items)
            == pre + "{" + Quoted("narrative") + ":\"" + e + "\"," + Quoted("options") + ":[" + items + "]}"
  {
  }

  /** Where the pieces of `pre + ObjectText(e, items)` sit. */
  lemma ObjectLayout(pre: string, e: string, items: string)
    requires Free(pre, '"')
    ensures Laid(pre + ObjectText(e, items), |pre|, e, items)
  {
    var w, P := pre + ObjectText(e, items), |pre|;
    var C := P + 14 + |e|;
    var q1, q2 := Quoted("narrative"), Quoted("options");
    var a := pre + "{";
    var b := a + q1 + ":\"";
    var c := b + e + "\",";
    var d := c + q2 + ":[";
    ObjectPieces(pre, e, items);
    assert w == d + items + "]}";
    assert |a| == P + 1 && |b| == P + 14 && |c| == C + 2 && |d| == C + 13;
    assert w[..|d|] == d && w[|d|..|d| + |items|] == items && w[|d| + |items|] == ']';
    assert d[..|c|] == c && d[|c|..|c| + |q2|] == q2 && d[|c| + |q2|] == ':' && d[|c| + |q2| + 1] == '[';
    assert c[..|b|] == b && c[|b|..|b| + |e|] == e && c[|b| + |e|] == '"' && c[|b| + |e| + 1] == ',';
    assert b[..P] == pre && b[P] == '{' && b[P + 1..P + 12] == q1 && b[P + 12] == ':' && b[P + 13] == '"';
    LayoutPrefix(w, d, c, b, pre, e, items, q1, q2);
  }

  /** The pieces' own positions carry over to the whole text. */
  lemma LayoutPrefix(w: string, d: string, c: string, b: string, pre: string, e: string, items: string,
                     q1: string, q2: string)
    requires q1 == Quoted("narrative") && q2 == Quoted("options") && Free(pre, '"')
    requires |b| == |pre| + 14 && |c| == |b| + |e| + 2 && |d| == |c| + 11
    requires w == d + items + "]}"
    requires w[..|d|] == d && w[|d|..|d| + |items|] == items && w[|d| + |items|] == ']'
    requires d[..|c|] == c && d[|c|..|c| + |q2|] == q2 && d[|c| + |q2|] == ':' && d[|c| + |q2| + 1] == '['
    requires c[..|b|] == b && c[|b|..|b| + |e|] == e && c[|b| + |e|] == '"' && c[|b| + |e| + 1] == ','
    requires b[..|pre|] == pre && b[|pre|] == '{' && b[|pre| + 1..|pre| + 12] == q1
    requires b[|pre| + 12] == ':' && b[|pre| + 13] == '"'
    ensures Laid(w, |pre|, e, items)
  {
    var P := |pre|;
    SliceCarry(c, b, 0, P, pre);
    SliceCarry(d, c, 0, P, pre);
    SliceCarry(w, d, 0, P, pre);
    forall k | 0 <= k < P ensures w[k] != '"' {
      assert w[k] == w[0..P][k];
    }
    SliceCarry(c, b, P + 1, P + 12, q1);
    SliceCarry(d, c, P + 1, P + 12, q1);
    SliceCarry(w, d, P + 1, P + 12, q1);
    SliceCarry(d, c, |b|, |b| + |e|, e);
    SliceCarry(w, d, |b|, |b| + |e|, e);
    SliceCarry(w, d, |c|, |c| + |q2|, q2);
  }

  /** A slice of a prefix of `w` is the same slice of `w`. */
  lemma SliceCarry(w: string, d: string, i: nat, j: nat, t: string)
    requires |d| <= |w| && w[..|d|] == d
    requires i <= j <= |d| && d[i..j] == t
    ensures w[i..j] == t
  {
    forall k | 0 <= k < j - i ensures w[i..j][k] == t[k] {
      assert w[i + k] == w[..|d|][i + k] == d[i + k] == d[i..j][k];
    }
  }

  /** A key, its colon right after it and the opener right after that. */
  lemma KeyShapeAt(w: string, key: string, opener: char, H: Hit)
    requires H.colon == H.key + |key| + 2 && H.open == H.colon + 1 && H.open < |w|
    requires OccursAt(w, Quoted(key), H.key)
    requires w[H.colon] == ':' && w[H.open] == opener
    ensures KeyShape(w, key, opener, H)
  {
  }

  /** The escaped narrative of the turn object, up to its closing quote. */
  lemma NarrativeValueShape(w: string, open: nat, close: nat, e: string)
    requires open < close < |w| && w[close] == '"'
    requires w[open + 1..close] == e && StringBody(e)
    ensures ValueShape(w, NarrativeString, open, close)
  {
  }

  lemma ShapeOfParts(w: string, pat: Pattern, H: Hit)
    requires KeyShape(w, KeyOf(pat), OpenerOf(pat), H)
    requires ValueShape(w, pat, H.open, H.close)
    ensures Shape(w, pat, H)
  {
  }

  /** After quote-free prose, no key can start before the object's first key. */
  lemma NoKeyInProse(w: string, P: nat, e: string, items: string, pat: Pattern, h: Hit)
    requires Laid(w, P, e, items) && Shape(w, pat, h)
    ensures P < h.key
  {
    KeyQuotes(w, pat, h);
  }

  /** The narrative regex matches the object's narrative string. */
  lemma NarrativeHit(w: string, P: nat, e: string, items: string)
    requires Laid(w, P, e, items)
    requires Shape(w, NarrativeString, Hit(P + 1, P + 12, P + 13, P + 14 + |e|))
    ensures Search(w, NarrativeString) == Some(Hit(P + 1, P + 12, P + 13, P + 14 + |e|))
  {
    forall h {:trigger Shape(w, NarrativeString, h)} | Shape(w, NarrativeString, h) ensures P + 1 <= h.key {
      NoKeyInProse(w, P, e, items, NarrativeString, h);
    }
    SearchLeftmost(w, NarrativeString, Hit(P + 1, P + 12, P + 13, P + 14 + |e|));
  }

  lemma LaidNarrative(w: string, P: nat, e: string, items: string)
    requires Laid(w, P, e, items) && StringBody(e)
    ensures RecoverNarrative(w) == Some(Unescape(e))
  {
    var H := Hit(P + 1, P + 12, P + 13, P + 14 + |e|);
    KeyShapeAt(w, "narrative", '"', H);
    NarrativeValueShape(w, H.open, H.close, e);
    ShapeOfParts(w, NarrativeString, H);
    NarrativeHit(w, P, e, items);
  }

  /** The narrative regex finds the turn's narrative after quote-free prose. */
  lemma TurnNarrative(pre: string, n: string, xs: seq<string>)
    requires Free(pre, '"') && NoBackslash(n) && NoOtherControl(n)
    ensures RecoverNarrative(pre + TurnObject(n, xs)) == Some(n)
  {
    EscapeIsBody(n);
    ObjectLayout(pre, Escape(n), Items(xs));
    LaidNarrative(pre + TurnObject(n, xs), |pre|, Escape(n), Items(xs));
    UnescapeEscape(n);
  }

  /** The characters of a quoted key, one by one. */
  lemma KeyChars(s: string, K: string, i: nat)
    requires OccursAt(s, Quoted(K), i)
    ensures s[i] == '"' && s[i + 1 + |K|] == '"'
    ensures forall k :: 0 <= k < |K| ==> s[i + 1 + k] == K[k]
    ensures Free(K, '"') ==> forall k :: i < k < i + 1 + |K| ==> s[k] != '"'
  {
    var q := Quoted(K);
    assert s[i] == s[i..i + |q|][0] == q[0];
    assert s[i + 1 + |K|] == s[i..i + |q|][1 + |K|] == q[1 + |K|];
    forall k | 0 <= k < |K| ensures s[i + 1 + k] == K[k] {
      assert s[i + 1 + k] == s[i..i + |q|][1 + k] == q[1 + k];
    }
    forall k | i < k < i + 1 + |K| ensures s[k] == K[k - i - 1] {
      assert s[i + 1 + (k - i - 1)] == K[k - i - 1];
    }
  }

  /** Before the options key of the turn object, a quote is one of the four
      quotes of the `"narrative":"` key and value, the closing quote, or an
      escaped quote of the narrative text. */
  lemma QuoteSpots(w: string, P: nat, e: string, items: string, j: nat)
    requires Laid(w, P, e, items) && QuotesEscaped(e)
    requires j < P + 16 + |e| && w[j] == '"'
    ensures || j == P + 1 || j == P + 11 || j == P + 13 || j == P + 14 + |e|
            || (P + 14 < j < P + 14 + |e| && w[j - 1] == Backslash)
  {
    var C := P + 14 + |e|;
    assert Free("narrative", '"');
    KeyChars(w, "narrative", P + 1);
    if P + 14 <= j < C {
      assert w[j] == w[P + 14..C][j - (P + 14)];
      assert w[j - 1] == w[P + 14..C][j - 1 - (P + 14)];
    }
  }

  /** The characters of an options key at `h` and the colon after it. */
  lemma OptionsKeyChars(w: string, h: Hit)
    requires Shape(w, OptionsArray, h)
    ensures h.key + 9 <= h.colon < |w| && w[h.colon] == ':' && AllSpace(w, h.key + 9, h.colon)
    ensures w[h.key] == '"' && w[h.key + 8] == '"'
    ensures forall i :: h.key < i < h.key + 8 ==> w[i] != '"' && w[i] != ',' && w[i] != Backslash
  {
    KeyChars(w, "options", h.key);
    forall i | h.key < i < h.key + 8 ensures w[i] != '"' && w[i] != ',' && w[i] != Backslash {
      assert w[i] == "options"[i - h.key - 1];
    }
  }

  /** No `"options"` key in front of the real one: its closing quote would
      have to be one of the quotes QuoteSpots lists, and none of them fits. */
  lemma NoEarlierOptions(w: string, P: nat, e: string, items: string, h: Hit)
    requires Laid(w, P, e, items) && QuotesEscaped(e)
    requires Shape(w, OptionsArray, h)
    ensures P + 16 + |e| <= h.key
  {
    var C := P + 14 + |e|;
    if h.key < C + 2 {
      OptionsKeyChars(w, h);
      QuoteSpots(w, P, e, items, h.key);
      if h.key + 8 < C + 2 {
        QuoteSpots(w, P, e, items, h.key + 8);
      }
      assert false;
    }
  }

  /** The option list of the turn object, up to its closing bracket. */
  lemma OptionsValueShape(w: string, open: nat, close: nat, items: string)
    requires open < close < |w| && w[close] == ']'
    requires w[open + 1..close] == items && Free(items, ']')
    ensures ValueShape(w, OptionsArray, open, close)
  {
    forall j | open < j < close ensures w[j] != ']' {
      assert w[j] == w[open + 1..close][j - (open + 1)];
    }
  }

  /** The `"options": [...]` match of the turn object. */
  lemma OptionsShape(w: string, P: nat, e: string, items: string)
    requires Laid(w, P, e, items) && Free(items, ']')
    ensures var C := P + 14 + |e|;
      Shape(w, OptionsArray, Hit(C + 2, C + 11, C + 12, C + 13 + |items|))
  {
    var C := P + 14 + |e|;
    var H := Hit(C + 2, C + 11, C + 12, C + 13 + |items|);
    KeyShapeAt(w, "options", '[', H);
    OptionsValueShape(w, H.open, H.close, items);
    ShapeOfParts(w, OptionsArray, H);
  }

  /** The options regex matches the object's option list. */
  lemma OptionsHit(w: string, P: nat, e: string, items: string)
    requires Laid(w, P, e, items) && QuotesEscaped(e) && Free(items, ']')
    ensures Search(w, OptionsArray) == Some(Hit(P + 16 + |e|, P + 25 + |e|, P + 26 + |e|, P + 27 + |e| + |items|))
  {
    var H := Hit(P + 16 + |e|, P + 25 + |e|, P + 26 + |e|, P + 27 + |e| + |items|);
    OptionsShape(w, P, e, items);
    forall h {:trigger Shape(w, OptionsArray, h)} | Shape(w, OptionsArray, h) ensures H.key <= h.key {
      NoEarlierOptions(w, P, e, items, h);
    }
    SearchLeftmost(w, OptionsArray, H);
  }

  lemma LaidOptions(w: string, P: nat, e: string, items: string)
    requires Laid(w, P, e, items) && QuotesEscaped(e) && Free(items, ']')
    ensures ExtractOptions(w) == ScanSpan(items)
  {
    var C := P + 14 + |e|;
    OptionsHit(w, P, e, items);
    assert w[C + 13..C + 13 + |items|] == items;
    OptionsOfHit(w, Hit(C + 2, C + 11, C + 12, C + 13 + |items|), items);
  }

  lemma OptionsOfHit(w: string, h: Hit, items: string)
    requires Search(w, OptionsArray) == Some(h)
    requires h.open + 1 <= h.close <= |w| && w[h.open + 1..h.close] == items
    ensures ExtractOptions(w) == ScanSpan(items)
  {
    ExtractAtHit(w, h);
    assert OptionsFrom(w, Some(h)) == ScanSpan(items);
  }

  lemma ExtractAtHit(w: string, h: Hit)
    requires Search(w, OptionsArray) == Some(h)
    ensures h.open < h.close <= |w|
    ensures ExtractOptions(w) == OptionsFrom(w, Some(h))
  {
  }

  /** The options scan finds the turn's options after quote-free prose. */
  lemma TurnOptions(pre: string, n: string, xs: seq<string>)
    requires Free(pre, '"')
    requires forall k :: 0 <= k < |xs| ==>
               NoBackslash(xs[k]) && Free(xs[k], '\n') && NoOtherControl(xs[k]) && Free(xs[k], ']')
    ensures ExtractOptions(pre + TurnObject(n, xs)) == xs
  {
    EscapeQuotesEscaped(n);
    ItemsFree(xs, ']');
    ObjectLayout(pre, Escape(n), Items(xs));
    LaidOptions(pre + TurnObject(n, xs), |pre|, Escape(n), Items(xs));
    ItemsValues(xs);
  }
}
