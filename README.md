# ai_saga_front: the turn decoder and the session screen, in Dafny

This project models the logic core of the ai_saga_front web client, a
text-adventure front end. A language model on the backend writes each turn
as supposedly-JSON text. The client decodes that text into a narrative, a
list of options and a state delta, and renders the message log.

The model covers these parts of the client:

- **The turn decoder** `parseGameContent` of MessageHistory.tsx. It is a fixed
  cascade:
  1. a ```` ```json ```` fence;
  2. brace extraction, only when the first `{` is before index 20, counted
     in UTF-16 code units as JavaScript counts string indexes;
  3. a strict parse, accepted only for an object with a `narrative` key;
  4. a regex recovery of the `"narrative"` string, with a three-step unescape;
  5. a salvage of everything before `"options":`;
  6. a scan of the options array.

  It is modelled as the function `Decoder.Decode` and as the step-by-step
  method `Decoder.ParseGameContent` proved equal to it. The regular
  expressions are hand-written scanners (module `Patterns`). Each scanner's
  contract says it finds exactly the leftmost match of a declarative shape.
- **Rendering decisions** in MessageHistory.tsx:
  - which messages are decoded;
  - the narrative fallback;
  - when the state-change notice appears (`hasChanges`);
  - which options are listed;
  - that only the newest message's options react to a click.
- **The session screen** GameSession.tsx, as a class `GameSession.Session`.
  Its fields are the component state. Its methods are the effects and
  handlers that update that state.
- **The state panel** GameStatePanel.tsx, as pure functions.

The main results:

- **Round trips of the unescape.** `Escapes.Escape` is JSON.stringify's
  string escaping. `Escapes.UnescapeEscape` proves the three-step unescape
  inverts it for text with no backslash and no control character other than
  the newline. Neither condition can be dropped:
  `Escapes.UnescapeBackslashN` shows that text with a backslash does not
  round-trip, and `Escapes.UnescapeTab` that a tab comes back as a backslash
  and a `t`.
- **Lead-in prose.** `DecodeCases.LeadInTurnRecovered` covers a turn written
  as a JSON object (in JSON.stringify's compact form) but preceded by prose,
  so that the strict parse fails. The regex recovery then returns exactly
  that object's narrative and options, under these conditions:
  - the lead-in is at least twenty characters long and has no quote, no `{`
    and no backtick;
  - the narrative is non-empty and has no backslash, no backtick and no
    control character other than the newline;
  - each option has no backslash, no newline or other control character, no
    `]` and no backtick.

  Each condition marks real behaviour of the code:
  - The lazy `[\s\S]*?\]` at MessageHistory.tsx:92 cuts the option list at
    the first `]`, even one inside an option.
  - The option unescape at :97 decodes only `\"`, so an option holding a
    newline comes back holding a backslash and an `n`.
  - The narrative's unescape at :52-55 keeps a backslash or a tab escaped
    (`Escapes.UnescapeBackslashN`, `Escapes.UnescapeTab`).
  - A quote in the lead-in could start a false key match.

  This is the case the session screen creates: it feeds the decoder
  `narrative + "\n\n" + content` (`GameSession.ReplyShownRecovered`, under
  the same conditions on the reply's narrative and turn).
- **The null cases.** `DecodeCases.QuotelessIsNull`, `DecodeCases.BlankIsNull`
  and `DecodeCases.EmptyNarrativeIsNull`.
- **Truncated, headless and broken turns.** `DecodeCases.UnclosedDecoded`
  covers a truncated turn and `SalvageCases.HeadlessDecoded` a headless
  one. `SalvageCases.KeyedDecoded` covers a turn that keeps its narrative
  key but has a backslash before a line break in its narrative, which the
  narrative regex cannot match. The salvage then keeps exactly the text
  after the key, backslash and line break included.
- **The notice.** `MessageHistory.NoticeIffNotQuiet` proves both directions
  of the `hasChanges` rule for a well-typed delta, and
  `MessageHistory.TypedNotice` that such a delta always renders. A mis-typed
  delta can make the notice throw (`MessageHistory.StringItemsBreakNotice`).
- **The session state.** Each handler's contract gives its whole new state.

`JSON.parse` is a library call. It is a parameter `parse: string ->
Option<JsonValue>`, where `None` means it threw. The strict path only asks
whether its result is an object with a `narrative` key.

Two consequences of the code that are easy to miss:

- **A truncated turn never reaches the salvage.** Take `{"narrative": "You
  open the door.` followed by `, "options": [`. The regex at
  MessageHistory.tsx:48 closes the narrative string at the opening quote of
  `"options"`, so step 4 succeeds. The narrative comes out as `You open the
  door., `, comma and space included (`DecodeCases.TruncatedTurnDecoded`).
  The comments at MessageHistory.tsx:57-58 and :73 describe the salvage as
  the strategy for a missing JSON structure. It is in fact reached only when
  no `"narrative"` string can be matched at all, as in
  `SalvageCases.HeadlessDecoded` and `SalvageCases.KeyedDecoded`.
- **`state_changes` on the recovery paths is `{}`** (MessageHistory.tsx:107),
  an empty object and not an absent field (`Api.ParsedGameResponse.AsJson`,
  `MessageHistory.RecoveredFields`). No notice is shown for it.

## Model

| member | source | states |
|---|---|---|
| Text.IndexOfFrom | src/components/game/MessageHistory.tsx:59 | `indexOf`: the first occurrence at or after the start index, and there is none before it; `None` exactly when there is no occurrence |
| Text.FindChar | src/components/game/MessageHistory.tsx:25 | `indexOf('{')`: the first index holding the character, or none at all |
| Text.LastIndexBefore | src/components/game/MessageHistory.tsx:26 | `lastIndexOf('}')`: the last index holding the character, or none at all |
| Text.Utf16Length | src/components/game/MessageHistory.tsx:25-31 | the length in UTF-16 code units, the unit of `indexOf`: at least the number of characters and at most twice it |
| Text.Utf16LengthBmp | src/components/game/MessageHistory.tsx:25-31 | in the Basic Multilingual Plane, code units and characters agree |
| Text.Utf16LengthWide | src/components/game/MessageHistory.tsx:25-31 | characters above U+FFFF, such as emoji, take two code units each |
| Text.Utf16LengthAppend | src/components/game/MessageHistory.tsx:25-31 | code units add up over a concatenation |
| Text.Trim | src/components/game/MessageHistory.tsx:62 | `trim()`: the result is a piece of the input with only whitespace around it, and it does not start or end with whitespace |
| Text.ReplaceAll | src/components/game/MessageHistory.tsx:53-55 | a global replace by a replacement no longer than the pattern never lengthens the text, and one of equal length keeps its length |
| Text.Join | src/components/game/GameStatePanel.tsx:120 | `join`: the result starts with the first element |
| Text.JoinSnoc | src/components/game/GameStatePanel.tsx:120 | `join`: one more element appends the separator and that element |
| Patterns.BodyEnd | src/components/game/MessageHistory.tsx:48 | the group `(?:[^"\\]\|\\.)*"`: it finds a string-body end exactly when one exists, and it is the only one |
| Patterns.KeyAt | src/components/game/MessageHistory.tsx:48 | the prefix `"key"\s*:\s*` plus opener: at a given position the match, if any, is unique |
| Patterns.ValueEnd | src/components/game/MessageHistory.tsx:92 | the value part of a pattern: for `\[([\s\S]*?)\]`, the first `]` after the bracket; the end found is the only one |
| Patterns.MatchAt | src/components/game/MessageHistory.tsx:48 | the match at one position, if any, is the only match there |
| Patterns.FirstMatch | src/components/game/MessageHistory.tsx:92 | the leftmost match from a position on; no match starts before it |
| Patterns.Search | src/components/game/MessageHistory.tsx:74 | `s.match(re)`: `None` exactly when no match exists; otherwise no other match starts at or before it |
| Patterns.SearchLeftmost | src/components/game/MessageHistory.tsx:48 | a match with no match to its left is the one reported |
| Patterns.LiteralEnd | src/components/game/MessageHistory.tsx:95 | a literal `"…"` at the front: its closing quote, found exactly when one exists |
| Patterns.LiteralBodies | src/components/game/MessageHistory.tsx:95 | `match(/"…"/g)`: every literal found uses at least its two quotes, so there are at most half as many as characters |
| Patterns.LiteralBodiesAreBodies | src/components/game/MessageHistory.tsx:95 | every literal the global scan yields is a well-formed string body |
| Patterns.LiteralBodiesSkip | src/components/game/MessageHistory.tsx:95 | text without quotes yields no literal |
| Patterns.LiteralBodiesFront | src/components/game/MessageHistory.tsx:95 | a literal at the front is found whole, and the scan resumes after it |
| Escapes.NewlineStepUndoesEscape | src/components/game/MessageHistory.tsx:53 | on escaped backslash-free text, the first replace turns exactly the newline escapes back |
| Escapes.QuoteStepUndoesEscape | src/components/game/MessageHistory.tsx:54 | the second replace turns the quote escapes back |
| Escapes.UnescapeEscape | src/components/game/MessageHistory.tsx:52-55 | round trip: the three replaces in their order invert JSON.stringify's escaping of text with no backslash and no control character but the newline |
| Escapes.UnescapeQuotesEscapeQuotes | src/components/game/MessageHistory.tsx:97 | round trip for option literals: the single `\"` replace inverts quote escaping |
| Escapes.UnescapePlain | src/components/game/MessageHistory.tsx:83-86 | text without backslashes passes the unescape unchanged |
| Escapes.UnescapeBackslashN | src/components/game/MessageHistory.tsx:52-55 | because `\n` is replaced first, an escaped backslash before `n` comes out as a backslash and a newline |
| Escapes.UnescapeTab | src/components/game/MessageHistory.tsx:52-55 | JSON.stringify writes a tab as `\t`, which no replace undoes: it comes back as a backslash and a `t` |
| Escapes.ReplaceAllPlain | src/components/game/MessageHistory.tsx:52-55 | a replace of a backslash escape passes a backslash-free prefix through unchanged |
| Escapes.UnescapeBreak | src/components/game/MessageHistory.tsx:52-55 | a backslash before a line terminator is no escape the replaces know: text whose only backslash stands there comes out unchanged |
| Escapes.Unescape | src/components/game/MessageHistory.tsx:52-55 | the three replaces never lengthen the text |
| Escapes.UnescapeQuotes | src/components/game/MessageHistory.tsx:97 | the option unescape never lengthens the text |
| Decoder.FenceMatch | src/components/game/MessageHistory.tsx:19 | the first ```` ```json ```` that has a ```` ``` ```` after it, and the first such ```` ``` ````; none exists exactly when the result is `None` |
| Decoder.FenceInterior | src/components/game/MessageHistory.tsx:19-22 | the captured group is a piece of the text between the fences with no whitespace at either end |
| Decoder.BraceSpan | src/components/game/MessageHistory.tsx:25-31 | the first `{` and the last `}`, when the last follows the first and the text before the first is under 20 UTF-16 code units; otherwise no such pair exists |
| Decoder.WorkingText | src/components/game/MessageHistory.tsx:18-34 | the text the parse steps work on is always a piece of the content |
| Decoder.AcceptsStrict | src/components/game/MessageHistory.tsx:39 | `typeof parsed === 'object' && parsed !== null && 'narrative' in parsed`: exactly a parse whose `narrative` property read is defined |
| Decoder.DropComma | src/components/game/MessageHistory.tsx:65 | one trailing comma dropped and the rest re-trimmed: a piece of the input |
| Decoder.DropTrailing | src/components/game/MessageHistory.tsx:65-66 | a piece of the input; text that ends in neither a comma nor a quote is left as it is |
| Decoder.StripBrace | src/components/game/MessageHistory.tsx:80 | `replace(/^\{\s*/, '')`: a suffix of the input; without a leading brace the input itself, else what follows the brace and the whitespace after it, starting with no whitespace |
| Decoder.DropLeading | src/components/game/MessageHistory.tsx:74-81 | with a match of the key regex, exactly the text after its first match; without one, StripBrace's result when the trimmed text starts with `{`, and the input itself otherwise |
| Decoder.RecoverNarrative | src/components/game/MessageHistory.tsx:46-88 | steps 4 and 5 give no narrative exactly when the narrative regex does not match and `"options":` does not occur |
| Decoder.Salvage | src/components/game/MessageHistory.tsx:59-87 | the salvage applies exactly when `"options":` occurs |
| Decoder.OptionValues | src/components/game/MessageHistory.tsx:97 | one option per literal, in order, each with `\"` unescaped |
| Decoder.ExtractOptions | src/components/game/MessageHistory.tsx:92-99 | no options without a match of the options regex, and never more than half as many options as characters |
| Decoder.Decode | src/components/game/MessageHistory.tsx:15-115 | it is strict exactly when the parse accepts the working text, and then it is the parsed object unchanged; a recovered result has a non-empty narrative from steps 4–5 and the options of step 6; null exactly when the parse fails and no non-empty narrative is recovered |
| Decoder.SelectJsonString | src/components/game/MessageHistory.tsx:18-34 | the reassignments of `jsonString` give the working text |
| Decoder.FallbackNarrative | src/components/game/MessageHistory.tsx:46-88 | the regex, else the salvage, as the source steps through `narrative` and `rawNarrative` |
| Decoder.ScanOptions | src/components/game/MessageHistory.tsx:90-99 | the options of the first `"options": [ … ]` span, or none |
| Decoder.ParseGameContent | src/components/game/MessageHistory.tsx:15-115 | the step-by-step decoder computes `Decode` |
| Recovery.EscapeIsBody | src/components/game/MessageHistory.tsx:48 | any text escaped by JSON.stringify, control characters included, is a body the narrative regex accepts |
| Recovery.ItemsBodies | src/components/game/MessageHistory.tsx:95 | for any options, the literal scan over JSON.stringify's option list finds each option's escaped text, in order |
| Recovery.ItemsValues | src/components/game/MessageHistory.tsx:95-97 | scanning and unescaping the option list gives back options that hold no backslash and no control character |
| Recovery.NarrativeHit | src/components/game/MessageHistory.tsx:48 | in a turn object after quote-free prose, the narrative regex matches at the object's own key |
| Recovery.LaidNarrative | src/components/game/MessageHistory.tsx:48-55 | the narrative recovered from such a text is the object's narrative text, unescaped |
| Recovery.TurnNarrative | src/components/game/MessageHistory.tsx:48-55 | after quote-free prose, the narrative regex recovers the turn's narrative exactly |
| Recovery.OptionsHit | src/components/game/MessageHistory.tsx:92 | the options regex matches at the object's own `"options"` key and closes at its `]` |
| Recovery.LaidOptions | src/components/game/MessageHistory.tsx:92-97 | the options scan of such a text reads exactly the object's option list |
| Recovery.TurnOptions | src/components/game/MessageHistory.tsx:92-97 | after quote-free prose, the options scan recovers the turn's options exactly |
| DecodeCases.NoFence | src/components/game/MessageHistory.tsx:19-21 | text without a backtick has no fence |
| DecodeCases.WorkingTextWhole | src/components/game/MessageHistory.tsx:18-34 | with no fence and no early `{`, the whole content is decoded |
| DecodeCases.WorkingTextBraced | src/components/game/MessageHistory.tsx:24-33 | with a first `{` under 20 UTF-16 code units in and a later last `}`, the span between them is decoded |
| DecodeCases.WideLeadInWhole | src/components/game/MessageHistory.tsx:25-31 | ten or more emoji (or other characters above U+FFFF) before the text leave it whole: they count as twenty code units |
| DecodeCases.WorkingTextFenced | src/components/game/MessageHistory.tsx:19-22 | with a fence, its trimmed interior is decoded |
| DecodeCases.QuotelessIsNull | src/components/game/MessageHistory.tsx:46-111 | text without a quote that the parser rejects decodes to null |
| DecodeCases.BlankIsNull | src/components/game/MessageHistory.tsx:15-111 | blank text that the parser rejects decodes to null |
| DecodeCases.LeadInDecodedWhole | src/components/game/MessageHistory.tsx:24-33 | a turn after twenty or more characters of brace-free prose is decoded whole, prose included |
| DecodeCases.LeadInTurnRecovered | src/components/game/MessageHistory.tsx:15-111 | such a text decodes to exactly the turn's narrative and options, when the lead-in has no quote, the narrative is non-empty with no backslash and no control character but the newline, the options hold no backslash, control character or `]`, and nothing holds a backtick |
| DecodeCases.EmptyNarrativeIsNull | src/components/game/MessageHistory.tsx:51-111 | an empty narrative string gives null; the salvage is not tried |
| DecodeCases.PaddedTurnRecovered | src/components/game/MessageHistory.tsx:15-111 | a concrete 25-character lead-in before `{"narrative":"hi","options":["go"]}` decodes to `hi` and `[go]` |
| DecodeCases.UnclosedNarrative | src/components/game/MessageHistory.tsx:48-55 | in a truncated turn the narrative string closes at the quote of `"options"` |
| DecodeCases.UnclosedNoOptions | src/components/game/MessageHistory.tsx:92-94 | a truncated turn has no options array, so no options |
| DecodeCases.UnclosedDecoded | src/components/game/MessageHistory.tsx:15-111 | a truncated turn decodes through step 4 to its body and no options |
| DecodeCases.TruncatedTurnDecoded | src/components/game/MessageHistory.tsx:15-111 | the truncated `You open the door.` turn decodes to `You open the door., ` |
| SalvageCases.TrimCore | src/components/game/MessageHistory.tsx:62 | trim removes exactly the whitespace around a core with non-space ends |
| SalvageCases.HeadIndex | src/components/game/MessageHistory.tsx:59 | in a headless turn the salvage cuts at the marker after the stray comma |
| SalvageCases.CleanTrim | src/components/game/MessageHistory.tsx:62 | the trim before the clean-up keeps the stray comma |
| SalvageCases.CleanTrailing | src/components/game/MessageHistory.tsx:65-66 | one trailing comma and then one trailing quote are dropped |
| SalvageCases.CleanLeading | src/components/game/MessageHistory.tsx:74-81 | prose without a key or a leading brace loses nothing in front |
| SalvageCases.HeadlessSalvage | src/components/game/MessageHistory.tsx:59-87 | the salvage of a headless turn is exactly its prose |
| SalvageCases.HeadNoKey | src/components/game/MessageHistory.tsx:48 | a headless turn holds no `"narrative"` key, so step 4 finds nothing |
| SalvageCases.HeadlessDecoded | src/components/game/MessageHistory.tsx:15-111 | a headless turn decodes to its prose, with the options the scan finds |
| SalvageCases.KeyedLeading | src/components/game/MessageHistory.tsx:74-76 | in a turn that starts with `{"narrative": "`, the key regex matches after the brace and the front clean-up keeps exactly what follows |
| SalvageCases.KeyedIndex | src/components/game/MessageHistory.tsx:59 | the salvage of a keyed turn cuts at the options key after the stray comma, not inside the key prefix |
| SalvageCases.KeyedSalvage | src/components/game/MessageHistory.tsx:59-86 | the salvage of a keyed turn with quote-free prose is that prose, unescaped |
| SalvageCases.BrokenBody | src/components/game/MessageHistory.tsx:48 | prose whose first backslash stands before a line terminator starts no string body: `.` does not match a line terminator |
| SalvageCases.KeyOnlyAtFront | src/components/game/MessageHistory.tsx:48 | a keyed turn over such prose holds the quoted narrative key only after its brace |
| SalvageCases.KeyedNoNarrative | src/components/game/MessageHistory.tsx:48 | the narrative regex finds nothing in such a turn, although the key is there |
| SalvageCases.KeyedDecoded | src/components/game/MessageHistory.tsx:15-111 | such a turn, closed by a brace and rejected by the strict parse, decodes through the salvage to its prose, backslash and line terminator included |
| SalvageCases.BrokenTurnDecoded | src/components/game/MessageHistory.tsx:15-111 | `{"narrative": "ab\` + LF + `cd", "options": ["x"]}` decodes to `ab\` + LF + `cd` |
| Json.Prop | src/components/game/MessageHistory.tsx:206-208 | a property read is defined exactly for an object's keys |
| Json.Truthy | src/components/game/MessageHistory.tsx:122 | JavaScript truthiness: false exactly for `null`, `false`, `0` and the empty string |
| Json.LengthPositive | src/components/game/MessageHistory.tsx:120-124 | `x.length > 0`: a string by its UTF-16 length, an array by its elements, an object by its own `length` key, and nothing else |
| Json.Or | src/components/game/MessageHistory.tsx:206 | `\|\|`: the left operand when truthy, else the right |
| MessageHistory.ChangesJson | src/types/api.ts:11-18 | a typed delta as its JSON object: each present field under its key, nothing else |
| MessageHistory.HpChanged | src/components/game/MessageHistory.tsx:125 | `!== undefined && !== 0`: an absent value is no change, a present non-number always is, a number is exactly when non-zero |
| MessageHistory.HasChanges | src/components/game/MessageHistory.tsx:119-125 | `hasChanges` holds only for an object with at least one of the six change keys |
| MessageHistory.NoticeOf | src/components/game/MessageHistory.tsx:127-183 | the notice appears exactly when `state_changes` is truthy and `hasChanges` holds, and then fails to render exactly when one of its rows throws |
| MessageHistory.TypedNotice | src/components/game/MessageHistory.tsx:119-183 | a well-typed delta never breaks the notice: it shows exactly when the delta is not quiet |
| MessageHistory.StringItemsBreakNotice | src/components/game/MessageHistory.tsx:135-139 | a non-empty string under `items_gained` shows its row, and `.join` throws |
| MessageHistory.LengthKeyBreaksNotice | src/components/game/MessageHistory.tsx:120-139 | an object with a positive `length` under `items_gained` passes `hasChanges`, and `.join` throws |
| MessageHistory.NoticeIffNotQuiet | src/components/game/MessageHistory.tsx:119-127 | for a typed delta, the notice appears exactly when some list is non-empty, the location is non-empty or the integrity change is non-zero |
| MessageHistory.NullHpIsChange | src/components/game/MessageHistory.tsx:125 | a decoded `hp_change` of `null` counts as a change; `0` does not |
| MessageHistory.ParsedFor | src/components/game/MessageHistory.tsx:204-205 | user messages are never decoded |
| MessageHistory.OptionsOf | src/components/game/MessageHistory.tsx:253-279 | options are listed exactly for a non-empty array of renderable values, in order; they are absent exactly when `options.length > 0` fails; anything else fails to render |
| MessageHistory.LengthKeyOptionsFail | src/components/game/MessageHistory.tsx:253-257 | an object with a positive `length` as `options` passes `options.length > 0`, and `.map` throws |
| MessageHistory.Render | src/components/game/MessageHistory.tsx:204-257 | the latest flag is passed through; a user message shows no notice and no options; an undecoded one is its raw text alone; a truthy `narrative` is shown |
| MessageHistory.ShowMessage | src/components/game/MessageHistory.tsx:203-257 | only a decoded system message shows a notice or options |
| MessageHistory.View | src/components/game/MessageHistory.tsx:203-258 | one rendered entry per message, and only the last one is the latest |
| MessageHistory.UserShownVerbatim | src/components/game/MessageHistory.tsx:204-208 | a user message is shown as its text, with no notice and no options |
| MessageHistory.UndecodedShownRaw | src/components/game/MessageHistory.tsx:205-206 | a message the decoder gives up on is shown raw, with no notice and no options |
| MessageHistory.RecoveredFields | src/components/game/MessageHistory.tsx:104-108 | a recovered turn carries its narrative, its options and an empty `state_changes` object |
| MessageHistory.RenderRecovered | src/components/game/MessageHistory.tsx:204-257 | a recovered turn renders its narrative and options, and no notice |
| MessageHistory.RecoveredShown | src/components/game/MessageHistory.tsx:204-257 | a message that decodes on a recovery path shows its narrative and its options as choices, and no notice |
| MessageHistory.StrictShown | src/components/game/MessageHistory.tsx:204-253 | a strict turn shows its truthy `narrative` or the raw text; its options and notice come from its own fields, and the notice appears exactly when `state_changes` is truthy and has changes |
| MessageHistory.AppendRetiresEarlier | src/components/game/MessageHistory.tsx:258 | appending a message leaves every earlier entry as it was, except that none is the latest |
| MessageHistory.Click | src/components/game/MessageHistory.tsx:262 | a click sends the chosen option exactly when the message is the latest and a handler is given |
| MessageHistory.ClickOnlyLatest | src/components/game/MessageHistory.tsx:258-262 | only the newest message's choices ever send an action |
| GameStatePanel.IsNearingEnd | src/components/game/GameStatePanel.tsx:12 | the warning holds exactly when the turn count is at least 0.8 of the limit |
| GameStatePanel.NearingEndStays | src/components/game/GameStatePanel.tsx:12 | once the warning shows, it stays as the turns go by |
| GameStatePanel.FinalTurnsNearingEnd | src/components/game/GameStatePanel.tsx:12 | at and past the limit the warning shows |
| GameStatePanel.DisplayLocation | src/components/game/GameStatePanel.tsx:46 | the location, or `Unknown` for the empty string; never empty |
| GameStatePanel.RecentLocations | src/components/game/GameStatePanel.tsx:120 | `slice(-5)`: the last `min(5, n)` locations, in stored order |
| GameStatePanel.RecentLocationsSlide | src/components/game/GameStatePanel.tsx:120 | a new visit is added at the end; past five, the oldest shown drops out |
| GameStatePanel.RecentPath | src/components/game/GameStatePanel.tsx:113-121 | the path line is empty without visits, and otherwise starts with the oldest of the last five |
| GameStatePanel.RecentPathSlide | src/components/game/GameStatePanel.tsx:120 | the path line grows by an arrow and the new location |
| GameStatePanel.PathEndsWithLatest | src/components/game/GameStatePanel.tsx:113-121 | a shown path ends with the newest location |
| GameStatePanel.Panel | src/components/game/GameStatePanel.tsx:11-123 | the warning and location rules; the inventory is `Empty` exactly when there are no items; the NPC, discovery and path sections show exactly for non-empty lists; every list in stored order |
| GameSession.FindFirst | src/pages/GameSession.tsx:37 | `find`: the first element satisfying the test, or none satisfies it |
| GameSession.FindCharacter | src/pages/GameSession.tsx:37 | the first character with the route's id, or none has it (no route id: none) |
| GameSession.FindActive | src/pages/GameSession.tsx:66-68 | the first session that is active and carries the character's name, or none is |
| GameSession.Reversed | src/pages/GameSession.tsx:149 | the items in reverse order |
| GameSession.ReversedTwice | src/pages/GameSession.tsx:149 | reversing twice restores the list, so no message is lost or reordered beyond the reversal |
| GameSession.MessagesQuery | src/pages/GameSession.tsx:126-137 | no session: null; a 404: an empty page; any other failure is rethrown unchanged, and only that is thrown |
| GameSession.ShouldRetry | src/pages/GameSession.tsx:140-143 | never after a 404 and never at three or more failures |
| GameSession.ThrownRetriedBelowLimit | src/pages/GameSession.tsx:132-143 | every error the query throws is retried exactly while fewer than three failures were counted |
| GameSession.SystemMessage | src/pages/GameSession.tsx:160-165 | a system message with the reply's id or the fallback, and content `narrative + "\n\n" + content` |
| GameSession.Session.constructor | src/pages/GameSession.tsx:23-30 | the initial screen state |
| GameSession.Session.ScreenOf | src/pages/GameSession.tsx:218-254 | the game is shown only with a session, no picker and no pending check; the picker shows exactly when the character is loaded and the flag is set |
| GameSession.Session.CheckSession | src/pages/GameSession.tsx:51-106 | the whole new state of the session check: skipped until the character is known; skipped with no route id or an existing session; else the first active session is adopted, or else the scenarios are loaded and the picker shown; failures change nothing but the checking flag |
| GameSession.Session.SelectScenario | src/pages/GameSession.tsx:109-121 | a started session is adopted, its image used when given, the picker hidden; a failure changes nothing |
| GameSession.Session.SyncHistory | src/pages/GameSession.tsx:147-151 | fetched history replaces the log, oldest first; nothing else changes |
| GameSession.Session.OnActionSuccess | src/pages/GameSession.tsx:159-174 | exactly one system message is appended, and the image is updated when the reply has one |
| GameSession.Session.HandleSendAction | src/pages/GameSession.tsx:177-191 | exactly one user message is appended, then the reply's system message when there is a session and the request succeeded |
| GameSession.Session.DeleteSession | src/pages/GameSession.tsx:194-216 | a successful delete clears the session and the log and shows the picker; otherwise nothing changes |
| GameSession.Session.InputDisabled | src/pages/GameSession.tsx:276-281 | an enabled input means a session, no pending action, a game not completed and turns left |
| GameSession.PanelOf | src/pages/GameSession.tsx:293-300 | the state panel shows exactly when the session details are loaded |
| GameSession.ExhaustedTurns | src/pages/GameSession.tsx:276-299 | with the turns used up, the input is disabled and the panel warns |
| GameSession.ReplyShownRecovered | src/pages/GameSession.tsx:163 | a reply whose content is a turn object, after a narrative of eighteen or more characters with no brace, quote or backtick, is shown with the turn's narrative and options, under the conditions of DecodeCases.LeadInTurnRecovered on the turn |

## Left out

- `JSON.parse` is not modelled. It is the parameter `parse`, and a strict result is whatever object it returns.
- The JavaScript regex engine is not modelled; the scanners are written by hand. That the engine reports the leftmost match of each shape is argued, not proved. The patterns do not backtrack into a different value: `[^"\\]` and `\\.` never both match, and the lazy `[\s\S]*?\]` stops at the first `]`.
- The outer `try`/`catch` of the decoder is not modelled separately. No step of the model can fail, so the catch branch is never taken.
- `GameStatePanel.IsNearingEnd`: it uses exact rationals. The source compares against `maxTurns * 0.8` in floating point. For integer limits of moderate size the two agree: the rounding error of the product is below half a unit and cannot cross an integer. This is not proved.
- `Json.AboveZero`: a string, array or object under an object's own `length` key is taken as not positive. JavaScript would convert it to a number first (`"3" > 0` holds); that conversion is not modelled.
- ReactMarkdown is a library and is not modelled. What it does with a narrative that is not a string (a truthy number, array or object from a strict parse) is left out; the model only records which value is passed to it.
- `join` and React rendering call no user code in the model: a parsed object never carries functions, so `toString` and `valueOf` overrides cannot occur, and an object rendered as a React child always throws (`MessageHistory.ReactChild`).
- Logging (`console.log`, `console.error`) has no effect on state and is not modelled.
- Rendering is not modelled: JSX, Markdown, icons, CSS classes, the timestamps on messages, the empty-log text, the processing indicator and scrolling to the bottom. StatusPanel is not part of this model.
- React Query is not modelled: caching, invalidation after an action or a delete, the session-details query and mutation pending states. The session details, the pending flag and every backend reply or failure are parameters of the member that uses them.
- Generated ids and clocks (`Date.now()`, `toISOString`) become parameters (`tempId`, `fallbackId`). Messages carry no timestamp.
- `window.confirm` before a delete and `window.location.reload` on the retry button are not modelled. `GameSession.Session.DeleteSession` takes the outcome of the request.
- Concurrency between effects and in-flight requests is not modelled. Each handler runs to completion, with the replies it awaited as arguments.
- GameSession.tsx passes no `onActionSelect` to MessageHistory, so on the session screen a click on an option sends nothing (`MessageHistory.Click` with no handler).
- The fields of the backend records that no modelled component reads are left out (timestamps, scenario names, ending types and the character object inside a session entry).
