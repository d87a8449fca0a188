/** What MessageHistory.tsx shows for each message of the log: which messages
    are decoded, the narrative it falls back to, when the state-change notice
    appears, which options are listed, and that only the newest message's
    options can be chosen. */
module MessageHistory {

  import opened Wrappers
  import opened Json
  import opened Api
  import opened Decoder

  /** `x !== undefined && x !== 0`: any present value other than the number 0
      (so `null` and `"0"` count as a change). */
  predicate HpChanged(x: Option<JsonValue>)
    ensures x.None? ==> !HpChanged(x)
    ensures x.Some? && !x.value.JNumber? ==> HpChanged(x)
    ensures x.Some? && x.value.JNumber? ==> (HpChanged(x) <==> x.value.n != 0.0)
  {
    x.Some? && x.value != JNumber(0.0)
  }

  /** The truthiness of the `hasChanges` expression of StateChangeIndicator,
      over the `state_changes` value as decoded (any JSON value). Only an
      object carries the keys it reads. */
  predicate HasChanges(changes: JsonValue)
    ensures HasChanges(changes) ==> changes.JObject? && exists key :: key in ChangeKeys && key in changes.fields
  {
    || NonEmpty(Prop(changes, "items_gained"))
    || NonEmpty(Prop(changes, "items_lost"))
    || (Prop(changes, "location").Some? && Truthy(Prop(changes, "location").value))
    || NonEmpty(Prop(changes, "npcs_met"))
    || NonEmpty(Prop(changes, "discoveries"))
    || HpChanged(Prop(changes, "hp_change"))
  }

  /** `v` can be rendered as a React child: React throws on a plain object
      and renders an array element by element. */
  predicate ReactChild(v: JsonValue)
    decreases v
  {
    match v
    case JObject(_) => false
    case JArray(xs) => forall k :: 0 <= k < |xs| ==> ReactChild(xs[k])
    case _ => true
  }

  /** A list row of the notice that is rendered but throws: a non-empty value
      that is not an array has no `.join`. */
  predicate JoinFails(x: Option<JsonValue>) {
    NonEmpty(x) && !x.value.JArray?
  }

  /** A rendered row of the notice that throws: a list row whose value has no
      `.join`, or a location or integrity value React cannot render. */
  predicate NoticeBreaks(changes: JsonValue) {
    var location, hp := Prop(changes, "location"), Prop(changes, "hp_change");
    || JoinFails(Prop(changes, "items_gained"))
    || JoinFails(Prop(changes, "items_lost"))
    || (location.Some? && Truthy(location.value) && !ReactChild(location.value))
    || JoinFails(Prop(changes, "npcs_met"))
    || JoinFails(Prop(changes, "discoveries"))
    || (HpChanged(hp) && !ReactChild(hp.value))
  }

  /** The state-change notice of a system message: absent, shown, or the
      render error of one of its rows. */
  datatype NoticeView = NoNotice | NoticeShown | NoticeFails

  /** `stateChanges && <StateChangeIndicator changes={stateChanges} />`. */
  function NoticeOf(changes: Option<JsonValue>): (r: NoticeView)
    ensures r != NoNotice <==> changes.Some? && Truthy(changes.value) && HasChanges(changes.value)
    ensures r == NoticeFails <==> r != NoNotice && NoticeBreaks(changes.value)
  {
    if changes.Some? && Truthy(changes.value) && HasChanges(changes.value) then
      (if NoticeBreaks(changes.value) then NoticeFails else NoticeShown)
    else NoNotice
  }

  function Strings(xs: seq<string>): (r: seq<JsonValue>)
    ensures |r| == |xs| && forall k :: 0 <= k < |xs| ==> r[k] == JString(xs[k])
  {
    seq(|xs|, k requires 0 <= k < |xs| => JString(xs[k]))
  }

  function ListJson(xs: Option<seq<string>>): Option<JsonValue> {
    if xs.Some? then Some(JArray(Strings(xs.value))) else None
  }

  /** The JSON value the backend sends under `key` for a typed delta, absent
      for a missing field. */
  function Entry(c: StateChanges, key: string): Option<JsonValue> {
    if key == "hp_change" then (if c.hpChange.Some? then Some(JNumber(c.hpChange.value as real)) else None)
    else if key == "items_gained" then ListJson(c.itemsGained)
    else if key == "items_lost" then ListJson(c.itemsLost)
    else if key == "location" then (if c.location.Some? then Some(JString(c.location.value)) else None)
    else if key == "npcs_met" then ListJson(c.npcsMet)
    else if key == "discoveries" then ListJson(c.discoveries)
    else None
  }

  const ChangeKeys: set<string> := {"hp_change", "items_gained", "items_lost", "location", "npcs_met", "discoveries"}

  /** A typed StateChanges record as the JSON object the backend sends: a key
      for every field that is present, and no other key. */
  function ChangesJson(c: StateChanges): (v: JsonValue)
    ensures v.JObject?
    ensures forall key :: Prop(v, key) == Entry(c, key)
  {
    JObject(map key | key in ChangeKeys && Entry(c, key).Some? :: Entry(c, key).value)
  }

  predicate AbsentOrEmpty<T>(x: Option<seq<T>>) {
    x.None? || x.value == []
  }

  /** A delta that changes nothing: every list absent or empty, no location
      or an empty one, and no integrity change or a zero one. */
  predicate Quiet(c: StateChanges) {
    && AbsentOrEmpty(c.itemsGained) && AbsentOrEmpty(c.itemsLost)
    && AbsentOrEmpty(c.npcsMet) && AbsentOrEmpty(c.discoveries)
    && (c.location.None? || c.location.value == "")
    && (c.hpChange.None? || c.hpChange.value == 0)
  }

  /** For a well-typed delta the notice appears exactly when the delta is not
      quiet. */
  lemma NoticeIffNotQuiet(c: StateChanges)
    ensures HasChanges(ChangesJson(c)) <==> !Quiet(c)
  {
    var v := ChangesJson(c);
    assert NonEmpty(Prop(v, "items_gained")) <==> !AbsentOrEmpty(c.itemsGained);
    assert NonEmpty(Prop(v, "items_lost")) <==> !AbsentOrEmpty(c.itemsLost);
    assert NonEmpty(Prop(v, "npcs_met")) <==> !AbsentOrEmpty(c.npcsMet);
    assert NonEmpty(Prop(v, "discoveries")) <==> !AbsentOrEmpty(c.discoveries);
  }

  /** A well-typed delta never breaks the notice: it is shown exactly when
      the delta is not quiet. */
  lemma TypedNotice(c: StateChanges)
    ensures NoticeOf(Some(ChangesJson(c))) == if Quiet(c) then NoNotice else NoticeShown
  {
    NoticeIffNotQuiet(c);
    var v := ChangesJson(c);
    assert !NoticeBreaks(v) by {
      assert Prop(v, "items_gained") == ListJson(c.itemsGained);
      assert Prop(v, "items_lost") == ListJson(c.itemsLost);
      assert Prop(v, "npcs_met") == ListJson(c.npcsMet);
      assert Prop(v, "discoveries") == ListJson(c.discoveries);
    }
  }

  /** A string where a list belongs shows the notice row and throws at its
      `.join`. */
  lemma StringItemsBreakNotice(s: string)
    requires s != ""
    ensures NoticeOf(Some(JObject(map["items_gained" := JString(s)]))) == NoticeFails
  {
    var v := JObject(map["items_gained" := JString(s)]);
    assert Prop(v, "items_gained") == Some(JString(s));
    assert "items_gained" in ChangeKeys;
  }

  /** An object with a positive `length` key passes `length > 0`: as a list of
      changes it makes the notice appear, and it then throws at `.join`. */
  lemma LengthKeyBreaksNotice()
    ensures HasChanges(JObject(map["items_gained" := JObject(map["length" := JNumber(2.0)])]))
    ensures NoticeOf(Some(JObject(map["items_gained" := JObject(map["length" := JNumber(2.0)])]))) == NoticeFails
  {
    var inner := JObject(map["length" := JNumber(2.0)]);
    var v := JObject(map["items_gained" := inner]);
    assert Prop(inner, "length") == Some(JNumber(2.0));
    assert Prop(v, "items_gained") == Some(inner);
    assert "items_gained" in ChangeKeys;
  }

  /** A decoded `hp_change` of `null` is a change, although no integrity
      changed: `null !== 0`. */
  lemma NullHpIsChange()
    ensures HasChanges(JObject(map["hp_change" := JNull]))
    ensures !HasChanges(JObject(map["hp_change" := JNumber(0.0)]))
  {
    assert Prop(JObject(map["hp_change" := JNull]), "hp_change") == Some(JNull);
  }

  /** The options element: nothing, a list of choices, or the render error
      of a non-empty `options` value that is not an array (a string, say, has
      no `.map`) or that holds a value React cannot render. */
  datatype OptionList = NoOptions | Choices(opts: seq<JsonValue>) | RenderFails

  /** One rendered message: the text given to the Markdown renderer, whether
      the state-change notice appears, the options element, and whether the
      message is the newest one (the only one whose options react to a click). */
  datatype Shown = Shown(narrative: JsonValue, notice: NoticeView, options: OptionList, latest: bool)

  /** Only non-user messages are decoded. */
  function ParsedFor(msg: Message, parse: string -> Option<JsonValue>): (r: Option<ParsedGameResponse>)
    ensures msg.role == "user" ==> r.None?
  {
    if msg.role != "user" then Decode(msg.content, parse) else None
  }

  /** `parsed?.key`. */
  function Field(parsed: Option<ParsedGameResponse>, key: string): Option<JsonValue> {
    if parsed.Some? then Prop(parsed.value.AsJson(), key) else None
  }

  /** `options && options.length > 0 && options.map(...)`, each option
      rendered as a child of its own `span`. */
  function OptionsOf(o: Option<JsonValue>): (r: OptionList)
    ensures r.NoOptions? <==> !NonEmpty(o)
    ensures r.Choices? <==>
              NonEmpty(o) && o.value.JArray? && forall k :: 0 <= k < |o.value.items| ==> ReactChild(o.value.items[k])
    ensures r.Choices? ==> r.opts == o.value.items
  {
    if !NonEmpty(o) then NoOptions
    else if o.value.JArray? && forall k :: 0 <= k < |o.value.items| ==> ReactChild(o.value.items[k]) then
      Choices(o.value.items)
    else RenderFails
  }

  /** An object with a positive `length` key passes `options.length > 0` and
      then has no `.map`. */
  lemma LengthKeyOptionsFail()
    ensures OptionsOf(Some(JObject(map["length" := JNumber(1.0)]))) == RenderFails
  {
    assert Prop(JObject(map["length" := JNumber(1.0)]), "length") == Some(JNumber(1.0));
  }

  /** One message as the component renders it, given what it decoded to. */
  function Render(msg: Message, parsed: Option<ParsedGameResponse>, latest: bool): (r: Shown)
    ensures r.latest == latest
    ensures msg.role == "user" ==> r.notice == NoNotice && r.options == NoOptions
    ensures parsed.None? ==> r == Shown(JString(msg.content), NoNotice, NoOptions, latest)
    ensures Field(parsed, "narrative").Some? && Truthy(Field(parsed, "narrative").value) ==>
              r.narrative == Field(parsed, "narrative").value
  {
    Shown(
      Or(Field(parsed, "narrative"), JString(msg.content)),
      if msg.role != "user" then NoticeOf(Field(parsed, "state_changes")) else NoNotice,
      if msg.role != "user" then OptionsOf(Field(parsed, "options")) else NoOptions,
      latest)
  }

  /** One message as the component renders it: only a system message is
      decoded, and only it can show a notice or options. */
  function ShowMessage(msg: Message, latest: bool, parse: string -> Option<JsonValue>): (r: Shown)
    ensures r.latest == latest
    ensures r.notice != NoNotice || r.options != NoOptions ==> msg.role != "user" && Decode(msg.content, parse).Some?
  {
    Render(msg, ParsedFor(msg, parse), latest)
  }

  /** The message list as rendered, index by index. */
  function View(messages: seq<Message>, parse: string -> Option<JsonValue>): (r: seq<Shown>)
    ensures |r| == |messages|
    ensures forall i :: 0 <= i < |r| ==> (r[i].latest <==> i == |messages| - 1)
  {
    seq(|messages|, i requires 0 <= i < |messages| => ShowMessage(messages[i], i == |messages| - 1, parse))
  }

  /** A user's message is shown verbatim, with no notice and no options. */
  lemma UserShownVerbatim(msg: Message, latest: bool, parse: string -> Option<JsonValue>)
    requires msg.role == "user"
    ensures ShowMessage(msg, latest, parse) == Shown(JString(msg.content), NoNotice, NoOptions, latest)
  {
  }

  /** A message the decoder gives up on is shown as its raw text, with no
      notice and no options. */
  lemma UndecodedShownRaw(msg: Message, latest: bool, parse: string -> Option<JsonValue>)
    requires Decode(msg.content, parse).None?
    ensures ShowMessage(msg, latest, parse) == Shown(JString(msg.content), NoNotice, NoOptions, latest)
  {
  }

  /** The three properties a recovered turn carries. */
  lemma RecoveredFields(n: string, xs: seq<string>)
    ensures Field(Some(Recovered(n, xs)), "narrative") == Some(JString(n))
    ensures Field(Some(Recovered(n, xs)), "options") == Some(JArray(Strings(xs)))
    ensures Field(Some(Recovered(n, xs)), "state_changes") == Some(JObject(map[]))
  {
    var v := Recovered(n, xs).AsJson();
    assert v.fields["options"] == JArray(Strings(xs));
  }

  /** A recovered turn shows its narrative and its options as choices, and
      never a state-change notice: its `state_changes` is the empty object. */
  lemma RecoveredShown(msg: Message, latest: bool, parse: string -> Option<JsonValue>, n: string, xs: seq<string>)
    requires msg.role != "user" && Decode(msg.content, parse) == Some(Recovered(n, xs))
    ensures ShowMessage(msg, latest, parse)
            == Shown(JString(n), NoNotice, if xs == [] then NoOptions else Choices(Strings(xs)), latest)
  {
    assert ParsedFor(msg, parse) == Some(Recovered(n, xs));
    assert n != "";
    RenderRecovered(msg, n, xs, latest);
  }

  lemma RenderRecovered(msg: Message, n: string, xs: seq<string>, latest: bool)
    requires msg.role != "user" && n != ""
    ensures Render(msg, Some(Recovered(n, xs)), latest)
            == Shown(JString(n), NoNotice, if xs == [] then NoOptions else Choices(Strings(xs)), latest)
  {
    RecoveredFields(n, xs);
    assert !HasChanges(JObject(map[]));
    assert OptionsOf(Some(JArray(Strings(xs)))) == if xs == [] then NoOptions else Choices(Strings(xs));
  }

  /** A strict turn shows its `narrative` when that is truthy and the raw
      content otherwise, and its options and notice come from its own
      `options` and `state_changes` fields. */
  lemma StrictShown(msg: Message, latest: bool, parse: string -> Option<JsonValue>, f: map<string, JsonValue>)
    requires msg.role != "user" && Decode(msg.content, parse) == Some(Strict(f))
    ensures "narrative" in f
    ensures ShowMessage(msg, latest, parse).narrative
            == if Truthy(f["narrative"]) then f["narrative"] else JString(msg.content)
    ensures ShowMessage(msg, latest, parse).options == OptionsOf(Prop(JObject(f), "options"))
    ensures ShowMessage(msg, latest, parse).notice == NoticeOf(Prop(JObject(f), "state_changes"))
    ensures ShowMessage(msg, latest, parse).notice != NoNotice
            <==> "state_changes" in f && Truthy(f["state_changes"]) && HasChanges(f["state_changes"])
  {
  }

  /** Appending a message leaves every earlier message rendered as before,
      except that none of them is the newest any more. */
  lemma AppendRetiresEarlier(messages: seq<Message>, m: Message, parse: string -> Option<JsonValue>)
    ensures var before, after := View(messages, parse), View(messages + [m], parse);
      && |after| == |before| + 1
      && (forall i :: 0 <= i < |before| ==> after[i] == before[i].(latest := false))
      && after[|before|] == ShowMessage(m, true, parse)
  {
    var before, after := View(messages, parse), View(messages + [m], parse);
    forall i | 0 <= i < |before| ensures after[i] == before[i].(latest := false) {
      assert (messages + [m])[i] == messages[i];
    }
  }

  /** `isLatestMessage && onActionSelect?.(opt)`: the option a click on
      choice `idx` sends, if any. */
  function Click(s: Shown, idx: nat, hasHandler: bool): (r: Option<JsonValue>)
    requires s.options.Choices? && idx < |s.options.opts|
    ensures r.Some? <==> s.latest && hasHandler
    ensures r.Some? ==> r.value == s.options.opts[idx]
  {
    if s.latest && hasHandler then Some(s.options.opts[idx]) else None
  }

  /** Only a choice of the newest message ever sends an action. */
  lemma ClickOnlyLatest(messages: seq<Message>, parse: string -> Option<JsonValue>, i: nat, idx: nat, hasHandler: bool)
    requires i < |messages|
    requires View(messages, parse)[i].options.Choices? && idx < |View(messages, parse)[i].options.opts|
    ensures Click(View(messages, parse)[i], idx, hasHandler).Some? ==> i == |messages| - 1
  {
  }
}
