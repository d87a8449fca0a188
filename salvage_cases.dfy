/** The salvage step of MessageHistory.tsx at work: a turn whose JSON starts
    only after the narrative (the model dropped the opening of the object),
    so that no `"narrative"` key exists and the regex recovery finds nothing.
    The salvage then keeps the prose before `"options":` and removes the stray
    closing quote and comma. */
module SalvageCases {

  import opened Wrappers
  import opened Text
  import opened Json
  import opened Escapes
  import opened Patterns
  import opened Api
  import opened Decoder
  import opened Recovery
  import opened DecodeCases

  /** A whitespace run that ends at a non-space character ends there. */
  lemma BackSpaceUnique(s: string, lo: nat, j: nat, k: nat)
    requires lo < k <= j <= |s| && AllSpace(s, k, j) && !IsSpace(s[k - 1])
    ensures BackSpace(s, lo, j) == k
    decreases j
  {
    if j > k {
      BackSpaceUnique(s, lo, j - 1, k);
    }
  }

  /** Whitespace around a core with non-space ends is what trim removes. */
  lemma TrimCore(a: string, core: string, b: string)
    requires AllSpace(a, 0, |a|) && AllSpace(b, 0, |b|)
    requires core != [] && !IsSpace(core[0]) && !IsSpace(core[|core| - 1])
    ensures Trim(a + core + b) == core
  {
    var s := a + core + b;
    var lo, hi := |a|, |a| + |core|;
    assert s[lo] == core[0] && s[hi - 1] == core[|core| - 1];
    assert AllSpace(s, 0, lo) by {
      forall k | 0 <= k < lo ensures IsSpace(s[k]) { assert s[k] == a[k]; }
    }
    assert AllSpace(s, hi, |s|) by {
      forall k | hi <= k < |s| ensures IsSpace(s[k]) { assert s[k] == b[k - hi]; }
    }
    SkipSpaceUnique(s, 0, lo);
    BackSpaceUnique(s, lo, |s|, hi);
    assert s[lo..hi] == core;
  }

  /** A text whose prose is followed by the stray end of a JSON string (the
      closing quote and a comma) and then by the options key. */
  function Headless(t: string, rest: string): string {
    t + "\", " + OptionsMarker + rest
  }

  /** `w` holds quote-free prose of length `n`, the stray quote and comma, a
      space, the options marker and then `rest`. */
  predicate HeadLaid(w: string, n: nat, rest: string) {
    && |w| == n + 13 + |rest|
    && (forall k :: 0 <= k < n ==> w[k] != '"')
    && w[n] == '"' && w[n + 1] == ',' && w[n + 2] == ' '
    && OccursAt(w, OptionsMarker, n + 3)
    && w[n + 3] == '"' && w[n + 4] == 'o' && w[n + 11] == '"' && w[n + 12] == ':'
    && (forall k :: n + 3 < k < n + 11 ==> w[k] != '"')
    && w[n + 13..] == rest
  }

  /** Where the characters of a headless turn sit. */
  lemma HeadlessChars(t: string, rest: string)
    requires Free(t, '"')
    ensures HeadLaid(Headless(t, rest), |t|, rest)
    ensures Headless(t, rest)[..|t| + 3] == t + "\", "
    ensures forall k :: 0 <= k < |t| ==> Headless(t, rest)[k] == t[k]
  {
    var w := Headless(t, rest);
    assert w == (t + "\", ") + OptionsMarker + rest;
    assert w[|t| + 3..|t| + 13] == OptionsMarker;
  }

  /** Every occurrence of the options marker starts with a quote and `o`,
      and ends with a quote and a colon. */
  lemma MarkerHeads(w: string)
    ensures forall k {:trigger OccursAt(w, OptionsMarker, k)} :: OccursAt(w, OptionsMarker, k) ==>
              w[k] == '"' && w[k + 1] == 'o' && w[k + 8] == '"' && w[k + 9] == ':'
  {
    forall k | OccursAt(w, OptionsMarker, k)
      ensures w[k] == '"' && w[k + 1] == 'o' && w[k + 8] == '"' && w[k + 9] == ':'
    {
      assert w[k] == w[k..k + |OptionsMarker|][0];
      assert w[k + 1] == w[k..k + |OptionsMarker|][1];
      assert w[k + 8] == w[k..k + |OptionsMarker|][8];
      assert w[k + 9] == w[k..k + |OptionsMarker|][9];
    }
  }

  /** Every occurrence of the quoted narrative key starts with a quote and
      `n`, and has a quote ten characters on. */
  lemma NarrativeHeads(w: string)
    ensures forall p {:trigger OccursAt(w, Quoted("narrative"), p)} :: OccursAt(w, Quoted("narrative"), p) ==>
              w[p] == '"' && w[p + 1] == 'n' && w[p + 10] == '"'
  {
    var q := Quoted("narrative");
    forall p | OccursAt(w, q, p) ensures w[p] == '"' && w[p + 1] == 'n' && w[p + 10] == '"' {
      assert w[p] == w[p..p + |q|][0];
      assert w[p + 1] == w[p..p + |q|][1];
      assert w[p + 10] == w[p..p + |q|][10];
    }
  }

  /** The marker the salvage cuts at is the one after the stray comma. */
  lemma HeadIndex(w: string, n: nat, rest: string)
    requires HeadLaid(w, n, rest)
    ensures IndexOfFrom(w, OptionsMarker, 0) == Some(n + 3)
  {
    MarkerHeads(w);
    IndexOfAt(w, OptionsMarker, 0, n + 3);
  }

  /** An occurrence past the marker is an occurrence in the options part. */
  lemma InRest(w: string, n: nat, rest: string, pat: string, p: int)
    requires HeadLaid(w, n, rest) && OccursAt(w, pat, p) && p >= n + 13
    ensures OccursAt(rest, pat, p - (n + 13))
  {
    var r := p - (n + 13);
    forall j | 0 <= j < |pat| ensures rest[r + j] == pat[j] {
      assert rest[r + j] == w[n + 13..][r + j] == w[p + j];
      assert w[p + j] == w[p..p + |pat|][j];
    }
    assert rest[r..r + |pat|] == pat;
  }

  /** The quoted narrative key occurs nowhere in a headless turn whose
      options part holds none. */
  lemma HeadNoKey(w: string, n: nat, rest: string)
    requires HeadLaid(w, n, rest)
    requires forall k :: !OccursAt(rest, Quoted("narrative"), k)
    ensures forall p :: !OccursAt(w, Quoted("narrative"), p)
  {
    NarrativeHeads(w);
    forall p | OccursAt(w, Quoted("narrative"), p) ensures false {
      if p >= n + 13 {
        InRest(w, n, rest, Quoted("narrative"), p);
      }
    }
  }

  /** Without its quoted key, a pattern has no match. */
  lemma NoKeyNoMatch(w: string, pat: Pattern)
    requires forall p :: !OccursAt(w, Quoted(KeyOf(pat)), p)
    ensures Search(w, pat).None?
  {
  }

  /** A text without quotes holds no match of the narrative key. */
  lemma NoKeyWithoutQuotes(t: string)
    requires Free(t, '"')
    ensures Search(t, NarrativeKey).None?
  {
    NarrativeHeads(t);
    NoKeyNoMatch(t, NarrativeKey);
  }

  /** The trim before the clean-up keeps the stray comma. */
  lemma CleanTrim(t: string)
    requires t != [] && !IsSpace(t[0])
    ensures Trim(t + "\", ") == t + "\","
  {
    assert t + "\", " == "" + (t + "\",") + " ";
    TrimCore("", t + "\",", " ");
  }

  /** The comma, then the quote, are dropped. */
  lemma CleanTrailing(t: string)
    requires t != [] && !IsSpace(t[0])
    ensures DropTrailing(t + "\",") == t
  {
    var raw := t + "\",";
    assert raw[..|raw| - 1] == "" + (t + "\"") + "";
    TrimCore("", t + "\"", "");
    assert (t + "\"")[..|t|] == t;
  }

  /** Quote-free prose that does not start with a brace loses nothing in
      front. */
  lemma CleanLeading(t: string)
    requires t != [] && !IsSpace(t[0]) && !IsSpace(t[|t| - 1]) && t[0] != '{'
    requires Free(t, '"')
    ensures DropLeading(t) == t
  {
    NoKeyWithoutQuotes(t);
    assert t == "" + t + "";
    TrimCore("", t, "");
  }

  /** The salvage of a headless turn is exactly its prose. */
  lemma HeadlessSalvage(t: string, rest: string)
    requires t != [] && !IsSpace(t[0]) && !IsSpace(t[|t| - 1]) && t[0] != '{'
    requires Free(t, '"') && NoBackslash(t)
    ensures Salvage(Headless(t, rest)) == Some(t)
  {
    HeadlessChars(t, rest);
    HeadIndex(Headless(t, rest), |t|, rest);
    CleanTrim(t);
    CleanTrailing(t);
    CleanLeading(t);
    UnescapePlain(t);
  }

  /** A headless turn decodes to its prose, with the options the scan finds
      after the marker. */
  lemma HeadlessDecoded(t: string, rest: string, parse: string -> Option<JsonValue>)
    requires t != [] && !IsSpace(t[0]) && !IsSpace(t[|t| - 1])
    requires Free(t, '"') && NoBackslash(t) && Free(t, '{') && Free(t, '`')
    requires Free(rest, '{') && Free(rest, '`')
    requires forall k :: !OccursAt(rest, Quoted("narrative"), k)
    requires !AcceptsStrict(parse(Headless(t, rest)))
    ensures Decode(Headless(t, rest), parse) == Some(Recovered(t, ExtractOptions(Headless(t, rest))))
  {
    var w := Headless(t, rest);
    HeadlessChars(t, rest);
    forall k | 0 <= k < |w| ensures w[k] != '{' && w[k] != '`' {
      if k >= |t| + 13 {
        assert w[k] == w[|t| + 13..][k - (|t| + 13)];
      }
    }
    WorkingTextWhole(w);
    HeadNoKey(w, |t|, rest);
    NoKeyNoMatch(w, NarrativeString);
    HeadlessSalvage(t, rest);
  }

  /** The front of a keyed turn: the brace, the quoted narrative key, a colon,
      a space and the opening quote of the narrative. */
  const KeyPrefix: string := "{" + Quoted("narrative") + ": \""

  /** A turn that keeps its narrative key: the key prefix, then prose, the
      closing quote and comma, the options key and `rest`. */
  function Keyed(t: string, rest: string): string {
    KeyPrefix + Headless(t, rest)
  }

  /** Where the characters of the key prefix sit in front of any text. */
  lemma KeyPrefixChars(h: string)
    ensures var w := KeyPrefix + h;
      && |w| == 15 + |h| && w[15..] == h
      && w[0] == '{' && w[1] == '"' && w[2] == 'n' && w[11] == '"' && w[12] == ':'
      && w[13] == ' ' && w[14] == '"'
      && (forall k :: 0 <= k < 15 && w[k] == '"' ==> k == 1 || k == 11 || k == 14)
      && (forall k :: 0 <= k < |h| ==> w[15 + k] == h[k])
      && OccursAt(w, Quoted("narrative"), 1)
  {
    var w := KeyPrefix + h;
    assert KeyPrefix == ['{', '"', 'n', 'a', 'r', 'r', 'a', 't', 'i', 'v', 'e', '"', ':', ' ', '"'];
    assert w[..15] == KeyPrefix;
    assert w[1..12] == Quoted("narrative");
  }

  /** An occurrence in the text after a prefix is an occurrence in the whole,
      shifted by the prefix's length, and the other way round. */
  lemma OccursShift(pre: string, h: string, pat: string, i: int)
    requires 0 <= i
    ensures OccursAt(pre + h, pat, |pre| + i) <==> OccursAt(h, pat, i)
  {
    if i + |pat| <= |h| {
      assert (pre + h)[|pre| + i..|pre| + i + |pat|] == h[i..i + |pat|];
    }
  }

  /** The key regex matches right after the brace, and the front clean-up
      keeps exactly what follows the key. */
  lemma KeyedLeading(t: string)
    ensures Search(KeyPrefix + t, NarrativeKey) == Some(Hit(1, 12, 14, 14))
    ensures DropLeading(KeyPrefix + t) == t
  {
    var s := KeyPrefix + t;
    KeyPrefixChars(t);
    var h := Hit(1, 12, 14, 14);
    assert KeyShape(s, "narrative", '"', h) by {
      assert IsSpace(s[13]);
    }
    forall g {:trigger Shape(s, NarrativeKey, g)} | Shape(s, NarrativeKey, g) ensures 1 <= g.key {
      KeyQuotes(s, NarrativeKey, g);
    }
    SearchLeftmost(s, NarrativeKey, h);
  }

  /** The marker the salvage of a keyed turn cuts at is the one after the
      stray comma: the key prefix holds none, and none straddles it and the
      prose. */
  lemma KeyedIndex(h: string, n: nat, rest: string)
    requires HeadLaid(h, n, rest)
    ensures IndexOfFrom(KeyPrefix + h, OptionsMarker, 0) == Some(n + 18)
  {
    var w := KeyPrefix + h;
    HeadIndex(h, n, rest);
    OccursShift(KeyPrefix, h, OptionsMarker, n + 3);
    NoMarkerInPrefix(h, n, rest);
    forall k | 15 <= k < n + 18 ensures !OccursAt(w, OptionsMarker, k) {
      OccursShift(KeyPrefix, h, OptionsMarker, k - 15);
    }
    IndexOfAt(w, OptionsMarker, 0, n + 18);
  }

  /** No options marker starts inside the key prefix: its quotes are followed
      by `n`, by `:` and by the prose, and the prose holds no quote where the
      marker's ninth character would fall. */
  lemma NoMarkerInPrefix(h: string, n: nat, rest: string)
    requires HeadLaid(h, n, rest)
    ensures forall k :: 0 <= k < 15 ==> !OccursAt(KeyPrefix + h, OptionsMarker, k)
  {
    var w := KeyPrefix + h;
    KeyPrefixChars(h);
    MarkerHeads(w);
    assert w[22] == h[7] && w[23] == h[8];
    assert !(h[7] == '"' && h[8] == ':');
  }

  /** The salvage of a keyed turn is the prose after the key, unescaped. */
  lemma KeyedSalvage(t: string, rest: string)
    requires Free(t, '"')
    ensures Salvage(Keyed(t, rest)) == Some(Unescape(t))
  {
    var h := Headless(t, rest);
    var u := KeyPrefix + t;
    HeadlessChars(t, rest);
    KeyedIndex(h, |t|, rest);
    assert Keyed(t, rest)[..|t| + 18] == u + "\", " by {
      assert Keyed(t, rest) == u + "\", " + (OptionsMarker + rest);
    }
    assert u[0] == '{';
    CleanTrim(u);
    CleanTrailing(u);
    KeyedLeading(t);
  }

  /** Prose whose first backslash stands before a line terminator is no
      string body, and neither is anything that starts with it: `.` does not
      match a line terminator. */
  lemma {:induction false} BrokenBody(p: string, c: char, u: string)
    requires Free(p, '"') && NoBackslash(p) && IsLineTerminator(c)
    ensures !StringBody(p + [Backslash, c] + u)
    decreases |p|
  {
    var s := p + [Backslash, c] + u;
    if p == [] {
      assert s[0] == Backslash && s[1] == c;
    } else {
      var tail := p[1..];
      assert Free(tail, '"') && NoBackslash(tail) by {
        forall k | 0 <= k < |tail| ensures tail[k] != '"' && tail[k] != Backslash { assert tail[k] == p[k + 1]; }
      }
      BrokenBody(tail, c, u);
      assert s[0] == p[0] && s[1..] == tail + [Backslash, c] + u;
    }
  }

  /** Prose with no quote, one backslash before a line terminator and no
      other backslash. */
  predicate BrokenProse(p: string, c: char, q: string) {
    Free(p, '"') && NoBackslash(p) && IsLineTerminator(c) && Free(q, '"') && NoBackslash(q)
  }

  lemma BrokenProseFree(p: string, c: char, q: string)
    requires BrokenProse(p, c, q)
    ensures Free(p + [Backslash, c] + q, '"')
  {
    FreeConcat(p, [Backslash, c], '"');
    FreeConcat(p + [Backslash, c], q, '"');
  }

  /** Inside the key prefix, the quoted narrative key can start only at its
      own quote or at the narrative's opening quote. */
  lemma KeyNotInPrefix(h: string)
    ensures forall k :: 0 <= k < 15 && k != 1 && k != 14 ==> !OccursAt(KeyPrefix + h, Quoted("narrative"), k)
  {
    var w := KeyPrefix + h;
    KeyPrefixChars(h);
    NarrativeHeads(w);
  }

  /** Past the key prefix, the quoted narrative key occurs nowhere in a keyed
      turn whose prose and `rest` hold none. */
  lemma KeyNotInHead(t: string, rest: string)
    requires Free(t, '"')
    requires forall k :: !OccursAt(rest, Quoted("narrative"), k)
    ensures forall k :: k >= 15 ==> !OccursAt(Keyed(t, rest), Quoted("narrative"), k)
  {
    var h := Headless(t, rest);
    HeadlessChars(t, rest);
    HeadNoKey(h, |t|, rest);
    forall k | k >= 15 ensures !OccursAt(KeyPrefix + h, Quoted("narrative"), k) {
      OccursShift(KeyPrefix, h, Quoted("narrative"), k - 15);
    }
  }

  /** At the narrative's opening quote the key cannot start: the backslash of
      the prose, or a character that is not a quote, stands where the key
      has a letter or its closing quote. */
  lemma KeyNotAtOpening(p: string, c: char, q: string, rest: string)
    requires BrokenProse(p, c, q)
    ensures !OccursAt(Keyed(p + [Backslash, c] + q, rest), Quoted("narrative"), 14)
  {
    var t := p + [Backslash, c] + q;
    var w := Keyed(t, rest);
    var Q := Quoted("narrative");
    BrokenProseFree(p, c, q);
    assert w == KeyPrefix + t + ("\", " + OptionsMarker + rest);
    assert |w| >= 25;
    assert w[15..15 + |t|] == t;
    assert t[|p|] == Backslash;
    if |p| < 9 {
      assert w[15 + |p|] == w[15..15 + |t|][|p|] == Backslash;
      assert w[14..25][1 + |p|] != Q[1 + |p|];
    } else {
      assert w[24] == w[15..15 + |t|][9] == t[9];
      assert w[14..25][10] != Q[10];
    }
  }

  /** The quoted narrative key occurs in a keyed turn over broken prose only
      right after the brace. */
  lemma KeyOnlyAtFront(p: string, c: char, q: string, rest: string)
    requires BrokenProse(p, c, q)
    requires forall k :: !OccursAt(rest, Quoted("narrative"), k)
    ensures forall k :: OccursAt(Keyed(p + [Backslash, c] + q, rest), Quoted("narrative"), k) ==> k == 1
  {
    var t := p + [Backslash, c] + q;
    BrokenProseFree(p, c, q);
    KeyNotInPrefix(Headless(t, rest));
    KeyNotInHead(t, rest);
    KeyNotAtOpening(p, c, q, rest);
  }

  /** A string body that starts at broken prose never ends: no quote closes
      it. */
  lemma BodyBroken(w: string, i: nat, p: string, c: char, q: string)
    requires BrokenProse(p, c, q)
    requires i + |p| + 2 + |q| <= |w| && w[i..i + |p| + 2 + |q|] == p + [Backslash, c] + q
    ensures forall e :: !BodyEndsAt(w, i, e)
  {
    var t := p + [Backslash, c] + q;
    BrokenProseFree(p, c, q);
    forall e | i <= e < |w| ensures !BodyEndsAt(w, i, e) {
      if e < i + |t| {
        assert w[e] == w[i..i + |t|][e - i] == t[e - i];
      } else {
        var v := w[i + |t|..e];
        assert w[i..e] == t + v;
        assert t + v == p + [Backslash, c] + (q + v);
        BrokenBody(p, c, q + v);
      }
    }
  }

  /** The narrative body after the key of a keyed turn over broken prose
      never ends. */
  lemma KeyedBodyBroken(p: string, c: char, q: string, rest: string)
    requires BrokenProse(p, c, q)
    ensures forall e :: !BodyEndsAt(Keyed(p + [Backslash, c] + q, rest), 15, e)
  {
    var t := p + [Backslash, c] + q;
    var w := Keyed(t, rest);
    assert w == KeyPrefix + t + ("\", " + OptionsMarker + rest);
    assert w[15..15 + |t|] == t;
    BodyBroken(w, 15, p, c, q);
  }

  /** A keyed turn holds a backtick only where its prose or `rest` does. */
  lemma KeyedFree(t: string, rest: string)
    requires Free(t, '`') && Free(rest, '`')
    ensures Free(Keyed(t, rest), '`')
  {
    FreeConcat(KeyPrefix, t, '`');
    FreeConcat(KeyPrefix + t, "\", " + OptionsMarker, '`');
    FreeConcat(KeyPrefix + t + ("\", " + OptionsMarker), rest, '`');
    assert Keyed(t, rest) == KeyPrefix + t + ("\", " + OptionsMarker) + rest;
  }

  /** A keyed turn without backticks that ends with a closing brace is
      decoded whole. */
  lemma KeyedWhole(t: string, rest: string)
    requires Free(t, '`') && Free(rest, '`') && rest != [] && rest[|rest| - 1] == '}'
    ensures WorkingText(Keyed(t, rest)) == Keyed(t, rest)
  {
    var w := Keyed(t, rest);
    KeyedFree(t, rest);
    assert w[0] == '{';
    assert w[|w| - 1] == rest[|rest| - 1];
    var body := w[1..|w| - 1];
    assert w == "" + "{" + body + "}" + "";
    WorkingTextBraced("", body, "");
  }

  /** The narrative regex finds nothing in a keyed turn over broken prose,
      although the key is there. */
  lemma KeyedNoNarrative(p: string, c: char, q: string, rest: string)
    requires BrokenProse(p, c, q)
    requires forall k :: !OccursAt(rest, Quoted("narrative"), k)
    ensures Search(Keyed(p + [Backslash, c] + q, rest), NarrativeString).None?
  {
    var w := Keyed(p + [Backslash, c] + q, rest);
    KeyOnlyAtFront(p, c, q, rest);
    KeyedBodyBroken(p, c, q, rest);
    KeyPrefixChars(Headless(p + [Backslash, c] + q, rest));
    forall g | Shape(w, NarrativeString, g) ensures g.key == 1 && g.colon == 12 && g.open == 14 {
      assert KeyAt(w, "narrative", '"', 1) == Some((12, 14)) by {
        SkipSpaceUnique(w, 12, 12);
        SkipSpaceUnique(w, 13, 14);
      }
    }
  }

  /** A keyed turn the strict parse rejects, over broken prose and with a
      closing brace at its end, decodes through the salvage to its prose,
      backslash and line terminator included. */
  lemma KeyedDecoded(p: string, c: char, q: string, rest: string, parse: string -> Option<JsonValue>)
    requires BrokenProse(p, c, q) && Free(p, '`') && Free(q, '`') && c != '`'
    requires Free(rest, '`') && rest != [] && rest[|rest| - 1] == '}'
    requires forall k :: !OccursAt(rest, Quoted("narrative"), k)
    requires !AcceptsStrict(parse(Keyed(p + [Backslash, c] + q, rest)))
    ensures var w := Keyed(p + [Backslash, c] + q, rest);
      Decode(w, parse) == Some(Recovered(p + [Backslash, c] + q, ExtractOptions(w)))
  {
    var t := p + [Backslash, c] + q;
    BrokenProseFree(p, c, q);
    FreeConcat(p, [Backslash, c], '`');
    FreeConcat(p + [Backslash, c], q, '`');
    KeyedWhole(t, rest);
    KeyedNoNarrative(p, c, q, rest);
    KeyedSalvage(t, rest);
    UnescapeBreak(p, c, q);
  }

  /** `{"narrative": "ab\` + LF + `cd", "options": ["x"]}`: the backslash before
      the line feed defeats the narrative regex. */
  const BrokenTurn: string := Keyed("ab" + [Backslash, '\n'] + "cd", " [\"x\"]}")

  lemma BrokenTurnDecoded(parse: string -> Option<JsonValue>)
    requires !AcceptsStrict(parse(BrokenTurn))
    ensures Decode(BrokenTurn, parse) == Some(Recovered("ab" + [Backslash, '\n'] + "cd", ExtractOptions(BrokenTurn)))
  {
    var rest := " [\"x\"]}";
    assert BrokenProse("ab", '\n', "cd");
    assert Free("ab", '`') && Free("cd", '`') && Free(rest, '`');
    assert forall k :: !OccursAt(rest, Quoted("narrative"), k);
    KeyedDecoded("ab", '\n', "cd", rest, parse);
  }
}
