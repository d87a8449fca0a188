/** The records the client exchanges with its backend (src/types/api.ts),
    reduced to the fields the modelled components read. Timestamps and other
    fields no modelled component looks at are omitted. */
module Api {

  import opened Wrappers
  import opened Json

  /** The running game state the backend owns. */
  datatype GameState = GameState(
    items: seq<string>,
    visitedLocations: seq<string>,
    metNpcs: seq<string>,
    discoveries: seq<string>)

  /** One turn's state delta; every field is optional. */
  datatype StateChanges = StateChanges(
    hpChange: Option<int>,
    itemsGained: Option<seq<string>>,
    itemsLost: Option<seq<string>>,
    location: Option<string>,
    npcsMet: Option<seq<string>>,
    discoveries: Option<seq<string>>)

  /** What the decoder returns. On the strict path it is the object JSON.parse
      produced, unchanged (its `options` and `state_changes` may be missing or
      of any type); on the recovery paths it is a narrative, the options found
      by the scan and an empty `state_changes` object. */
  datatype ParsedGameResponse =
    | Strict(fields: map<string, JsonValue>)
    | Recovered(narrative: string, options: seq<string>)
  {
    /** The response as the JavaScript object the caller sees. */
    function AsJson(): JsonValue {
      match this
      case Strict(fields) => JObject(fields)
      case Recovered(narrative, options) =>
        JObject(map["narrative" := JString(narrative),
                     "options" := JArray(seq(|options|, k requires 0 <= k < |options| => JString(options[k]))),
                     "state_changes" := JObject(map[])])
    }
  }

  /** A chat message (GameMessageResponse and MessageHistoryResponse). */
  datatype Message = Message(id: string, role: string, content: string)

  /** One page of the message history endpoint, newest first. */
  datatype MessagePage = MessagePage(items: seq<Message>, hasMore: bool, nextCursor: Option<string>)

  /** An entry of the session list (SessionListResponse). The list endpoint does
      not declare an image, but the client reads one if present. */
  datatype SessionSummary = SessionSummary(
    id: string, characterName: string, status: string, imageUrl: Option<string>)

  /** A session's details (GameSessionResponse). */
  datatype SessionData = SessionData(
    id: string, status: string, turnCount: int, maxTurns: int,
    currentLocation: string, gameState: GameState, imageUrl: Option<string>)

  /** The reply to a player action (GameActionResponse). */
  datatype ActionReply = ActionReply(message: Message, narrative: string, imageUrl: Option<string>)

  datatype Character = Character(id: string, name: string)

  datatype Scenario = Scenario(id: string, name: string)
}
