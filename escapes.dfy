/** The decoder's hand-rolled string unescaping (MessageHistory.tsx), and the
    JSON escaping it is meant to undo, as a reference to measure it against. */
module Escapes {

  import opened Text

  const Backslash: char := '\\'
  /** The two-character sequences `\n`, `\"` and `\\`. */
  const EscNewline: string := ['\\', 'n']
  const EscQuote: string := ['\\', '"']
  const EscBackslash: string := ['\\', '\\']

  /** The recovery paths' unescape: three global replaces, in this order,
      `\n` -> newline, `\"` -> quote, `\\` -> backslash. No other escape
      sequence is touched. */
  function Unescape(s: string): (r: string)
    ensures |r| <= |s|
  {
    ReplaceAll(ReplaceAll(ReplaceAll(s, EscNewline, "\n"), EscQuote, "\""), EscBackslash, "\\")
  }

  /** The option-literal unescape: only `\"` -> quote. */
  function UnescapeQuotes(s: string): (r: string)
    ensures |r| <= |s|
  {
    ReplaceAll(s, EscQuote, "\"")
  }

  /** JSON string escaping as JSON.stringify writes it (section 25.5.2.3 of
      ECMA-262, QuoteJSONString): the quote, the backslash and every control
      character below U+0020 are escaped, the five with a short form as `\b`,
      `\t`, `\n`, `\f`, `\r` and the others as `\u00` and two lower-case hex
      digits. Dafny characters are Unicode scalar values, so the lone
      surrogates JSON.stringify also escapes cannot occur. */
  function Escape(x: string): string
    decreases |x|
  {
    if x == [] then "" else EscapeChar(x[0]) + Escape(x[1..])
  }

  /** JSON escaping of the quote character only. */
  function EscapeQuotes(x: string): string
    decreases |x|
  {
    if x == [] then "" else QuoteEscapeChar(x[0]) + EscapeQuotes(x[1..])
  }

  predicate NoBackslash(x: string) {
    forall k :: 0 <= k < |x| ==> x[k] != Backslash
  }

  /** A control character other than the newline: one JSON.stringify escapes
      in a form the decoder's unescape does not know. */
  predicate OtherControl(c: char) {
    c < ' ' && c != '\n'
  }

  predicate NoOtherControl(x: string) {
    forall k :: 0 <= k < |x| ==> !OtherControl(x[k])
  }

  /** The characters an escape sequence is written with: the backslash, the
      quote, lower-case letters and digits. */
  predicate EscapeSyntax(c: char) {
    c == Backslash || c == '"' || ('a' <= c <= 'z') || ('0' <= c <= '9')
  }

  /** A replace of a pattern that starts with a backslash passes a character
      that is not a backslash through unchanged. */
  lemma ReplaceAllCons(c: char, t: string, pat: string, rep: string)
    requires |pat| > 0 && pat[0] != c
    ensures ReplaceAll([c] + t, pat, rep) == [c] + ReplaceAll(t, pat, rep)
  {
    var s := [c] + t;
    if |s| >= |pat| {
      assert s[..|pat|][0] == c;
      assert s[1..] == t;
    } else {
      assert |t| < |pat|;
    }
  }

  /** A replace whose two-character pattern fails at the front passes the
      first character through. */
  lemma ReplaceAllMiss(c: char, t: string, pat: string, rep: string)
    requires |pat| == 2 && t != [] && [c, t[0]] != pat
    ensures ReplaceAll([c] + t, pat, rep) == [c] + ReplaceAll(t, pat, rep)
  {
    var s := [c] + t;
    assert s[..2] == [c, t[0]];
    assert s[1..] == t;
  }

  /** A replace of a pattern that starts with a backslash passes a
      backslash-free prefix through unchanged. */
  lemma {:induction false} ReplaceAllPlain(p: string, u: string, pat: string, rep: string)
    requires NoBackslash(p) && |pat| > 0 && pat[0] == Backslash
    ensures ReplaceAll(p + u, pat, rep) == p + ReplaceAll(u, pat, rep)
    decreases |p|
  {
    if p != [] {
      var tail := p[1..];
      assert NoBackslash(tail) by {
        forall k | 0 <= k < |tail| ensures tail[k] != Backslash { assert tail[k] == p[k + 1]; }
      }
      ReplaceAllPlain(tail, u, pat, rep);
      assert p + u == [p[0]] + (tail + u);
      ReplaceAllCons(p[0], tail + u, pat, rep);
      assert p + ReplaceAll(u, pat, rep) == [p[0]] + (tail + ReplaceAll(u, pat, rep));
    } else {
      assert p + u == u && p + ReplaceAll(u, pat, rep) == ReplaceAll(u, pat, rep);
    }
  }

  /** A replace that finds its pattern at the front emits the replacement. */
  lemma ReplaceAllHead(t: string, pat: string, rep: string)
    requires |pat| > 0
    ensures ReplaceAll(pat + t, pat, rep) == rep + ReplaceAll(t, pat, rep)
  {
    var s := pat + t;
    assert s[..|pat|] == pat;
    assert s[|pat|..] == t;
  }

  /** Without backslashes in the input, the first replace (`\n`) exactly undoes
      the newline escapes and leaves the quote escapes in place. */
  lemma {:induction false} NewlineStepUndoesEscape(x: string)
    requires NoBackslash(x) && NoOtherControl(x)
    ensures ReplaceAll(Escape(x), EscNewline, "\n") == EscapeQuotes(x)
    decreases |x|
  {
    if x != [] {
      var rest := x[1..];
      assert NoBackslash(rest) && NoOtherControl(rest) by {
        forall k | 0 <= k < |rest| ensures rest[k] != Backslash && !OtherControl(rest[k]) {
          assert rest[k] == x[k + 1];
        }
      }
      NewlineStepUndoesEscape(rest);
      NewlineStepFront(x[0], Escape(rest));
      assert Escape(x) == EscapeChar(x[0]) + Escape(rest);
      assert EscapeQuotes(x) == QuoteEscapeChar(x[0]) + EscapeQuotes(rest);
    }
  }

  const HexDigits: string := "0123456789abcdef"

  /** The escape of one character. */
  function EscapeChar(c: char): (r: string)
    ensures c >= ' ' && c != '"' && c != Backslash ==> r == [c]
    ensures |r| == 1 || |r| == 2 || |r| == 6
    ensures |r| == 1 ==> r == [c] && c != '"' && c != Backslash
    ensures |r| > 1 ==> r[0] == Backslash && !IsLineTerminator(r[1])
    ensures |r| > 1 ==> forall k :: 0 <= k < |r| ==> EscapeSyntax(r[k])
    ensures forall k :: 2 <= k < |r| ==> r[k] != '"' && r[k] != Backslash
  {
    if c == '"' then EscQuote
    else if c == Backslash then EscBackslash
    else if c == '\U{8}' then ['\\', 'b']
    else if c == '\t' then ['\\', 't']
    else if c == '\n' then EscNewline
    else if c == '\U{C}' then ['\\', 'f']
    else if c == '\r' then ['\\', 'r']
    else if c < ' ' then ['\\', 'u', '0', '0', HexDigits[c as int / 16], HexDigits[c as int % 16]]
    else [c]
  }

  function QuoteEscapeChar(c: char): string {
    if c == '"' then EscQuote else [c]
  }

  /** One step of NewlineStepUndoesEscape: the escape of one character that
      is not a backslash, in front of any text. */
  lemma NewlineStepFront(c: char, t: string)
    requires c != Backslash && !OtherControl(c)
    ensures ReplaceAll(EscapeChar(c) + t, EscNewline, "\n")
            == QuoteEscapeChar(c) + ReplaceAll(t, EscNewline, "\n")
  {
    if c == '"' {
      NewlineStepQuote(t);
    } else if c == '\n' {
      ReplaceAllHead(t, EscNewline, "\n");
    } else {
      ReplaceAllCons(c, t, EscNewline, "\n");
    }
  }

  /** The quote after the backslash of an escaped quote keeps `\n` from
      matching there. */
  lemma NewlineStepQuote(t: string)
    ensures ReplaceAll(EscQuote + t, EscNewline, "\n") == EscQuote + ReplaceAll(t, EscNewline, "\n")
  {
    ReplaceAllMiss(Backslash, ['"'] + t, EscNewline, "\n");
    assert EscQuote + t == [Backslash] + (['"'] + t);
    ReplaceAllCons('"', t, EscNewline, "\n");
    assert EscQuote + ReplaceAll(t, EscNewline, "\n") == [Backslash] + (['"'] + ReplaceAll(t, EscNewline, "\n"));
  }

  /** The quote step undoes quote-only escaping of a backslash-free string. */
  lemma {:induction false} QuoteStepUndoesEscape(x: string)
    requires NoBackslash(x)
    ensures ReplaceAll(EscapeQuotes(x), EscQuote, "\"") == x
    decreases |x|
  {
    if x != [] {
      var rest := x[1..];
      assert NoBackslash(rest) by {
        forall k | 0 <= k < |rest| ensures rest[k] != Backslash { assert rest[k] == x[k + 1]; }
      }
      QuoteStepUndoesEscape(rest);
      var er := EscapeQuotes(rest);
      if x[0] == '"' {
        assert EscapeQuotes(x) == EscQuote + er;
        ReplaceAllHead(er, EscQuote, "\"");
        assert x == ['"'] + rest;
      } else {
        assert EscapeQuotes(x) == [x[0]] + er;
        ReplaceAllCons(x[0], er, EscQuote, "\"");
        assert x == [x[0]] + rest;
      }
    }
  }

  /** Round trip: the three-step unescape recovers any JSON-escaped text that
      holds no backslash of its own and no control character but the
      newline. */
  lemma UnescapeEscape(x: string)
    requires NoBackslash(x) && NoOtherControl(x)
    ensures Unescape(Escape(x)) == x
  {
    NewlineStepUndoesEscape(x);
    QuoteStepUndoesEscape(x);
    ReplaceAllAbsent(x, EscBackslash, "\\");
  }

  /** Round trip for option literals: unescaping `\"` recovers quote-escaped
      text that holds no backslash of its own. */
  lemma UnescapeQuotesEscapeQuotes(x: string)
    requires NoBackslash(x)
    ensures UnescapeQuotes(EscapeQuotes(x)) == x
  {
    QuoteStepUndoesEscape(x);
  }

  /** Text without a backslash is left unchanged by the unescape. */
  lemma UnescapePlain(x: string)
    requires NoBackslash(x)
    ensures Unescape(x) == x
  {
    ReplaceAllAbsent(x, EscNewline, "\n");
    ReplaceAllAbsent(x, EscQuote, "\"");
    ReplaceAllAbsent(x, EscBackslash, "\\");
  }

  /** Because `\n` is replaced first, an escaped backslash followed by `n`
      (JSON for the two characters backslash, n) comes out as a backslash and
      a newline: the unescape is not JSON's for text that holds a backslash. */
  lemma UnescapeBackslashN()
    ensures Escape([Backslash, 'n']) == [Backslash, Backslash, 'n']
    ensures Unescape([Backslash, Backslash, 'n']) == [Backslash, '\n']
  {
    var s := [Backslash, Backslash, 'n'];
    assert s[..2] == EscBackslash && s[..2] != EscNewline;
    assert s[1..] == EscNewline + [];
    ReplaceAllHead([], EscNewline, "\n");
    var s1 := [Backslash, '\n'];
    assert ReplaceAll(s, EscNewline, "\n") == s1;
    ReplaceAllMiss(Backslash, ['\n'], EscQuote, "\"");
    ReplaceAllMiss(Backslash, ['\n'], EscBackslash, "\\");
    ReplaceAllCons('\n', [], EscQuote, "\"");
    ReplaceAllCons('\n', [], EscBackslash, "\\");
  }

  /** One replace of an escape `\x`, where `x` is not `c`, leaves text
      whose only backslash stands before `c` unchanged. */
  lemma BreakStep(p: string, c: char, q: string, pat: string, rep: string)
    requires NoBackslash(p) && NoBackslash(q) && c != Backslash
    requires |pat| == 2 && pat[0] == Backslash && pat[1] != c
    ensures ReplaceAll(p + [Backslash, c] + q, pat, rep) == p + [Backslash, c] + q
  {
    assert p + [Backslash, c] + q == p + ([Backslash] + ([c] + q));
    ReplaceAllPlain(p, [Backslash] + ([c] + q), pat, rep);
    ReplaceAllMiss(Backslash, [c] + q, pat, rep);
    ReplaceAllCons(c, q, pat, rep);
    ReplaceAllAbsent(q, pat, rep);
  }

  /** A backslash before a line terminator is no escape the unescape knows:
      text whose only backslash stands there comes out unchanged. */
  lemma UnescapeBreak(p: string, c: char, q: string)
    requires NoBackslash(p) && NoBackslash(q) && IsLineTerminator(c)
    ensures Unescape(p + [Backslash, c] + q) == p + [Backslash, c] + q
  {
    BreakStep(p, c, q, EscNewline, "\n");
    BreakStep(p, c, q, EscQuote, "\"");
    BreakStep(p, c, q, EscBackslash, "\\");
  }

  /** A tab is escaped as `\t`, which no step of the unescape knows: the
      recovered text holds a backslash and a `t` where the tab was. */
  lemma UnescapeTab()
    ensures Escape("\t") == [Backslash, 't']
    ensures Unescape([Backslash, 't']) == [Backslash, 't']
  {
    var s := [Backslash, 't'];
    assert Escape("\t") == EscapeChar('\t') + Escape([]);
    ReplaceAllMiss(Backslash, ['t'], EscNewline, "\n");
    ReplaceAllMiss(Backslash, ['t'], EscQuote, "\"");
    ReplaceAllMiss(Backslash, ['t'], EscBackslash, "\\");
    ReplaceAllCons('t', [], EscNewline, "\n");
    ReplaceAllCons('t', [], EscQuote, "\"");
    ReplaceAllCons('t', [], EscBackslash, "\\");
  }
}
