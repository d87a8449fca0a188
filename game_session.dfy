/** The session screen of GameSession.tsx: the component state its handlers
    update (the session id, the local message log, the scene image, the
    scenario picker), the active-session lookup, the message-fetch error
    rules and the input-disable rule. Every backend reply, every failure
    and every generated id is a parameter of the handler that awaits it. */
module GameSession {

  import opened Wrappers
  import opened Json
  import opened Api
  import opened Escapes
  import opened Decoder
  import opened Recovery
  import opened DecodeCases
  import opened MessageHistory
  import opened GameStatePanel

  /** JavaScript truthiness of a string that may be null. */
  predicate Present(x: Option<string>) {
    x.Some? && x.value != ""
  }

  /** `xs.find(p)` from index `from` on: the index of the first element that
      satisfies `p`. */
  function FindFirst<T>(xs: seq<T>, p: T -> bool, from: nat): (r: Option<nat>)
    requires from <= |xs|
    ensures r.Some? ==> from <= r.value < |xs| && p(xs[r.value])
    ensures r.Some? ==> forall k :: from <= k < r.value ==> !p(xs[k])
    ensures r.None? ==> forall k :: from <= k < |xs| ==> !p(xs[k])
    decreases |xs| - from
  {
    if from == |xs| then None
    else if p(xs[from]) then Some(from)
    else FindFirst(xs, p, from + 1)
  }

  /** `characters?.find(c => c.id === characterId)`: no character matches a
      missing route parameter. */
  function FindCharacter(characters: seq<Character>, characterId: Option<string>): (r: Option<Character>)
    ensures r.Some? ==> characterId.Some? && r.value.id == characterId.value && r.value in characters
    ensures r.Some? ==> exists i :: 0 <= i < |characters| && characters[i] == r.value
                           && forall k :: 0 <= k < i ==> characters[k].id != characterId.value
    ensures r.None? ==> forall k :: 0 <= k < |characters| ==>
                          characterId.None? || characters[k].id != characterId.value
  {
    if characterId.None? then None
    else
      match FindFirst(characters, (c: Character) => c.id == characterId.value, 0)
      case Some(i) => Some(characters[i])
      case None => None
  }

  predicate IsActiveFor(s: SessionSummary, name: string) {
    s.status == "active" && s.characterName == name
  }

  /** The active session of the character: the first listed session that is
      active and carries the character's name. */
  function FindActive(sessions: seq<SessionSummary>, name: string): (r: Option<nat>)
    ensures r.Some? ==> r.value < |sessions| && IsActiveFor(sessions[r.value], name)
    ensures r.Some? ==> forall k :: 0 <= k < r.value ==> !IsActiveFor(sessions[k], name)
    ensures r.None? ==> forall k :: 0 <= k < |sessions| ==> !IsActiveFor(sessions[k], name)
  {
    FindFirst(sessions, (s: SessionSummary) => IsActiveFor(s, name), 0)
  }

  /** `[...s].reverse()`. */
  function Reversed<T>(s: seq<T>): (r: seq<T>)
    ensures |r| == |s| && forall i :: 0 <= i < |s| ==> r[i] == s[|s| - 1 - i]
  {
    seq(|s|, i requires 0 <= i < |s| => s[|s| - 1 - i])
  }

  /** Reversing is its own inverse, so the log holds exactly the fetched
      messages, oldest first. */
  lemma ReversedTwice<T>(s: seq<T>)
    ensures Reversed(Reversed(s)) == s
  {
  }

  /** The failed request of the message query: the HTTP status of the
      response, when there was one. */
  datatype FetchError = FetchError(status: Option<int>)

  predicate Is404(e: FetchError) {
    e.status == Some(404)
  }

  /** What the history request produced. */
  datatype Fetched = Fetched(page: MessagePage) | FetchFailed(error: FetchError)

  /** What the query function returns to React Query, or throws. */
  datatype QueryOutcome = Data(page: Option<MessagePage>) | Thrown(error: FetchError)

  const EmptyPage: MessagePage := MessagePage([], false, None)

  /** The message query function: no session gives null, a 404 is a new
      session with no messages yet, and any other failure is rethrown. */
  function MessagesQuery(sessionId: Option<string>, fetched: Fetched): (r: QueryOutcome)
    ensures !Present(sessionId) ==> r == Data(None)
    ensures Present(sessionId) && fetched.Fetched? ==> r == Data(Some(fetched.page))
    ensures Present(sessionId) && fetched.FetchFailed? && Is404(fetched.error) ==> r == Data(Some(EmptyPage))
    ensures r.Thrown? <==> Present(sessionId) && fetched.FetchFailed? && !Is404(fetched.error)
    ensures r.Thrown? ==> r.error == fetched.error
  {
    if !Present(sessionId) then Data(None)
    else match fetched
      case Fetched(page) => Data(Some(page))
      case FetchFailed(e) => if Is404(e) then Data(Some(EmptyPage)) else Thrown(e)
  }

  const MaxRetries: nat := 3

  /** The query's retry rule: never after a 404, otherwise while fewer than
      three failures were counted. */
  predicate ShouldRetry(failureCount: nat, e: FetchError)
    ensures Is404(e) ==> !ShouldRetry(failureCount, e)
    ensures failureCount >= MaxRetries ==> !ShouldRetry(failureCount, e)
  {
    !Is404(e) && failureCount < MaxRetries
  }

  /** The query function itself turns a 404 into data, so every error it
      throws is retried exactly while the failure count is below three. */
  lemma ThrownRetriedBelowLimit(sessionId: Option<string>, fetched: Fetched, failureCount: nat)
    requires MessagesQuery(sessionId, fetched).Thrown?
    ensures ShouldRetry(failureCount, MessagesQuery(sessionId, fetched).error) <==> failureCount < MaxRetries
  {
  }

  /** The system message appended for a reply: the message id, or the
      generated fallback when it is empty, and the reply's narrative, a blank
      line and the message content. */
  function SystemMessage(reply: ActionReply, fallbackId: string): (m: Message)
    ensures m.role == "system"
    ensures m.id == (if reply.message.id != "" then reply.message.id else fallbackId)
    ensures m.content == reply.narrative + "\n\n" + reply.message.content
  {
    Message(if reply.message.id != "" then reply.message.id else fallbackId, "system",
            reply.narrative + "\n\n" + reply.message.content)
  }

  /** What the session screen shows in place of the game. */
  datatype Screen =
    | SearchingDatabase
    | IdentityNotFound
    | ScenarioPicker(options: seq<Scenario>)
    | Connecting
    | ConnectionFailed
    | Playing

  class Session {
    /** The route parameter. */
    const characterId: Option<string>
    var sessionId: Option<string>
    var localMessages: seq<Message>
    var imageUrl: Option<string>
    var isCheckingSession: bool
    var scenarios: seq<Scenario>
    var showScenarioSelect: bool

    /** The state a freshly mounted screen starts in. */
    constructor(characterId: Option<string>)
      ensures this.characterId == characterId
      ensures sessionId == None && localMessages == [] && imageUrl == None
      ensures isCheckingSession && scenarios == [] && !showScenarioSelect
    {
      this.characterId := characterId;
      sessionId := None;
      localMessages := [];
      imageUrl := None;
      isCheckingSession := true;
      scenarios := [];
      showScenarioSelect := false;
    }

    predicate HasSession()
      reads this
    {
      Present(sessionId)
    }

    /** The `disabled` prop of the action input. An enabled input means a
        session exists, no action is pending, and the loaded session is
        neither completed nor out of turns. */
    predicate InputDisabled(pending: bool, sessionData: Option<SessionData>)
      reads this
      ensures !InputDisabled(pending, sessionData) ==> HasSession() && !pending
      ensures !InputDisabled(pending, sessionData) && sessionData.Some? ==>
                sessionData.value.status != "completed" && sessionData.value.turnCount < sessionData.value.maxTurns
    {
      || pending
      || !HasSession()
      || (sessionData.Some? && sessionData.value.status == "completed")
      || (sessionData.Some? && sessionData.value.turnCount >= sessionData.value.maxTurns)
    }

    /** The screen for the character query's state and the component state. */
    function ScreenOf(isLoadingChar: bool, character: Option<Character>): (r: Screen)
      reads this
      ensures r == Playing ==> HasSession() && !showScenarioSelect && !isCheckingSession
      ensures r.ScenarioPicker? <==> !isLoadingChar && character.Some? && showScenarioSelect
    {
      if isLoadingChar then SearchingDatabase
      else if character.None? then IdentityNotFound
      else if showScenarioSelect then ScenarioPicker(scenarios)
      else if isCheckingSession then Connecting
      else if !HasSession() then ConnectionFailed
      else Playing
    }

    /** The session check the effect runs once the character is known: the
        session list (None: the request failed), then, when the character has
        no active session, the scenarios (None: that request failed). */
    method CheckSession(character: Option<Character>, sessions: Option<seq<SessionSummary>>,
                        loadedScenarios: Option<seq<Scenario>>)
      modifies this
      ensures character.None? ==> unchanged(this)
      ensures character.Some? ==> !isCheckingSession && localMessages == old(localMessages)
      ensures character.Some? && (!Present(characterId) || Present(old(sessionId))) ==>
                sessionId == old(sessionId) && imageUrl == old(imageUrl)
                && scenarios == old(scenarios) && showScenarioSelect == old(showScenarioSelect)
      ensures character.Some? && Present(characterId) && !Present(old(sessionId)) && sessions.Some? ==>
                match FindActive(sessions.value, character.value.name)
                case Some(i) =>
                  && sessionId == Some(sessions.value[i].id)
                  && imageUrl == (if Present(sessions.value[i].imageUrl) then sessions.value[i].imageUrl
                                  else old(imageUrl))
                  && scenarios == old(scenarios) && showScenarioSelect == old(showScenarioSelect)
                case None =>
                  && sessionId == old(sessionId) && imageUrl == old(imageUrl)
                  && (loadedScenarios.Some? ==> scenarios == loadedScenarios.value && showScenarioSelect)
                  && (loadedScenarios.None? ==>
                        scenarios == old(scenarios) && showScenarioSelect == old(showScenarioSelect))
      ensures character.Some? && sessions.None? ==>
                sessionId == old(sessionId) && imageUrl == old(imageUrl)
                && scenarios == old(scenarios) && showScenarioSelect == old(showScenarioSelect)
    {
      if character.None? {
        return;
      }
      if !Present(characterId) || Present(sessionId) {
        isCheckingSession := false;
        return;
      }
      if sessions.Some? {
        var activeSession := FindActive(sessions.value, character.value.name);
        if activeSession.Some? {
          var s := sessions.value[activeSession.value];
          sessionId := Some(s.id);
          if Present(s.imageUrl) {
            imageUrl := s.imageUrl;
          }
        } else if loadedScenarios.Some? {
          scenarios := loadedScenarios.value;
          showScenarioSelect := true;
        }
      }
      isCheckingSession := false;
    }

    /** `handleScenarioSelect`: `started` is the new session, or None when
        starting it failed. */
    method SelectScenario(started: Option<SessionData>)
      modifies this
      ensures !Present(characterId) || started.None? ==> unchanged(this)
      ensures Present(characterId) && started.Some? ==>
                && sessionId == Some(started.value.id)
                && imageUrl == (if Present(started.value.imageUrl) then started.value.imageUrl else old(imageUrl))
                && !showScenarioSelect
                && localMessages == old(localMessages) && scenarios == old(scenarios)
                && isCheckingSession == old(isCheckingSession)
    {
      if !Present(characterId) {
        return;
      }
      if started.Some? {
        sessionId := Some(started.value.id);
        if Present(started.value.imageUrl) {
          imageUrl := started.value.imageUrl;
        }
        showScenarioSelect := false;
      }
    }

    /** The history effect: fetched history replaces the log, newest-first
        items put oldest first. */
    method SyncHistory(history: Option<MessagePage>)
      modifies this
      ensures history.Some? ==> localMessages == Reversed(history.value.items)
      ensures history.None? ==> localMessages == old(localMessages)
      ensures sessionId == old(sessionId) && imageUrl == old(imageUrl) && scenarios == old(scenarios)
      ensures showScenarioSelect == old(showScenarioSelect) && isCheckingSession == old(isCheckingSession)
    {
      if history.Some? {
        localMessages := Reversed(history.value.items);
      }
    }

    /** The action mutation's success handler. */
    method OnActionSuccess(reply: ActionReply, fallbackId: string)
      modifies this
      ensures localMessages == old(localMessages) + [SystemMessage(reply, fallbackId)]
      ensures imageUrl == (if Present(reply.imageUrl) then reply.imageUrl else old(imageUrl))
      ensures sessionId == old(sessionId) && scenarios == old(scenarios)
      ensures showScenarioSelect == old(showScenarioSelect) && isCheckingSession == old(isCheckingSession)
    {
      var systemMsg := SystemMessage(reply, fallbackId);
      localMessages := localMessages + [systemMsg];
      if Present(reply.imageUrl) {
        imageUrl := reply.imageUrl;
      }
    }

    /** `handleSendAction`: the player's message goes on the log at once;
        the reply (None: the request failed) is appended only when there is a
        session to send it to. */
    method HandleSendAction(content: string, tempId: string, reply: Option<ActionReply>, fallbackId: string)
      modifies this
      ensures localMessages == old(localMessages) + [Message(tempId, "user", content)]
                + (if Present(old(sessionId)) && reply.Some? then [SystemMessage(reply.value, fallbackId)] else [])
      ensures imageUrl == (if Present(old(sessionId)) && reply.Some? && Present(reply.value.imageUrl)
                           then reply.value.imageUrl else old(imageUrl))
      ensures sessionId == old(sessionId) && scenarios == old(scenarios)
      ensures showScenarioSelect == old(showScenarioSelect) && isCheckingSession == old(isCheckingSession)
    {
      var tempMsg := Message(tempId, "user", content);
      localMessages := localMessages + [tempMsg];
      if Present(sessionId) && reply.Some? {
        OnActionSuccess(reply.value, fallbackId);
      }
    }

    /** The delete mutation: with a session and a successful request the
        session is dropped, the log cleared and the scenario picker shown. */
    method DeleteSession(succeeded: bool)
      modifies this
      ensures Present(old(sessionId)) && succeeded ==>
                sessionId == None && localMessages == [] && showScenarioSelect
                && imageUrl == old(imageUrl) && scenarios == old(scenarios)
                && isCheckingSession == old(isCheckingSession)
      ensures !(Present(old(sessionId)) && succeeded) ==> unchanged(this)
    {
      if Present(sessionId) && succeeded {
        sessionId := None;
        localMessages := [];
        showScenarioSelect := true;
      }
    }
  }

  /** The state panel for the session details, shown when they are loaded. */
  function PanelOf(sessionData: Option<SessionData>): (r: Option<PanelView>)
    ensures r.Some? <==> sessionData.Some?
  {
    if sessionData.Some? then
      var d := sessionData.value;
      Some(Panel(d.gameState, d.currentLocation, d.turnCount, d.maxTurns))
    else None
  }

  /** When the turns are used up the input is disabled and the panel warns
      that the game is ending. */
  lemma ExhaustedTurns(s: Session, pending: bool, d: SessionData)
    requires 0 <= d.maxTurns <= d.turnCount
    ensures s.InputDisabled(pending, Some(d))
    ensures PanelOf(Some(d)).value.endingSoon
  {
    FinalTurnsNearingEnd(d.turnCount, d.maxTurns);
  }

  /** The decoder input a reply builds: its narrative, a blank line, then the
      model's raw turn. When the raw turn is a JSON object and the narrative
      is prose of at least eighteen characters, the brace heuristic cannot
      isolate the object and the strict parse of the whole text fails; the
      regex recovery still shows the turn's own narrative and options. */
  lemma ReplyShownRecovered(reply: ActionReply, fallbackId: string, parse: string -> Option<JsonValue>,
                            n: string, xs: seq<string>)
    requires reply.message.content == TurnObject(n, xs)
    requires |reply.narrative| + 2 >= BraceLimit
    requires Free(reply.narrative, '{') && Free(reply.narrative, '`') && Free(reply.narrative, '"')
    requires n != "" && NoBackslash(n) && NoOtherControl(n) && Free(n, '`')
    requires forall k :: 0 <= k < |xs| ==>
               && NoBackslash(xs[k]) && Free(xs[k], '\n') && NoOtherControl(xs[k])
               && Free(xs[k], ']') && Free(xs[k], '`')
    requires !AcceptsStrict(parse(SystemMessage(reply, fallbackId).content))
    ensures ShowMessage(SystemMessage(reply, fallbackId), true, parse)
            == Shown(JString(n), NoNotice, if xs == [] then NoOptions else Choices(Strings(xs)), true)
  {
    var pre := reply.narrative + "\n\n";
    FreeConcat(reply.narrative, "\n\n", '{');
    FreeConcat(reply.narrative, "\n\n", '`');
    FreeConcat(reply.narrative, "\n\n", '"');
    assert SystemMessage(reply, fallbackId).content == pre + TurnObject(n, xs);
    LeadInTurnRecovered(pre, n, xs, parse);
    RecoveredShown(SystemMessage(reply, fallbackId), true, parse, n, xs);
  }
}
