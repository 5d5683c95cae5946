/**
 * The protocol vocabulary: actors, action types, lobby settings and the frames
 * that cross the socket.
 */
module Actions {
  import opened Wrappers
  import opened JsValue

  /** Who sent an action. */
  datatype Actor = Client | Server

  function ActorName(a: Actor): string {
    match a
    case Client => "client"
    case Server => "server"
  }

  /** `["server", "client"].includes(v)`: the actor a value names, if any. */
  function ActorOf(v: Value): (r: Option<Actor>)
    ensures r.Some? ==> v == Str(ActorName(r.value))
    ensures (exists a: Actor :: v == Str(ActorName(a))) ==> r.Some?
  {
    if v == Str("server") then Some(Server)
    else if v == Str("client") then Some(Client)
    else None
  }

  /** The action types the protocol declares. */
  datatype ActionType =
    | Handshake | AckHandshake
    | CreateLobby | JoinLobby | AckJoinLobby
    | ChangeLobbySettings | BroadcastLobbySettings
    | BroadcastGameUpdate

  function TypeName(t: ActionType): string {
    match t
    case Handshake => "handshake"
    case AckHandshake => "ackHandshake"
    case CreateLobby => "createLobby"
    case JoinLobby => "joinLobby"
    case AckJoinLobby => "ackJoinLobby"
    case ChangeLobbySettings => "changeLobbySettings"
    case BroadcastLobbySettings => "broadcastLobbySettings"
    case BroadcastGameUpdate => "broadcastGameUpdate"
  }

  /** The declared type a wire `type` value names, compared with `===`. */
  function ActionTypeOf(v: Value): (r: Option<ActionType>)
    ensures r.Some? ==> v == Str(TypeName(r.value))
    ensures (exists t: ActionType :: v == Str(TypeName(t))) ==> r.Some?
  {
    if !v.Str? then None
    else
      match v.s
      case "handshake" => Some(Handshake)
      case "ackHandshake" => Some(AckHandshake)
      case "createLobby" => Some(CreateLobby)
      case "joinLobby" => Some(JoinLobby)
      case "ackJoinLobby" => Some(AckJoinLobby)
      case "changeLobbySettings" => Some(ChangeLobbySettings)
      case "broadcastLobbySettings" => Some(BroadcastLobbySettings)
      case "broadcastGameUpdate" => Some(BroadcastGameUpdate)
      case _ => None
  }

  /** Distinct types have distinct wire names, so `ActionTypeOf` inverts `TypeName`. */
  lemma ActionTypeRoundTrip(t: ActionType)
    ensures ActionTypeOf(Str(TypeName(t))) == Some(t)
  {
  }

  datatype Difficulty = Easy | Medium | Hard

  function DifficultyName(d: Difficulty): string {
    match d
    case Easy => "easy"
    case Medium => "medium"
    case Hard => "hard"
  }

  /** The typed lobby settings record. */
  datatype LobbySettings = LobbySettings(winScore: int, difficulty: Difficulty)

  /** The settings record as the JavaScript object the lobby stores. */
  function SettingsProps(s: LobbySettings): map<string, Value> {
    map["winScore" := Num(s.winScore), "difficulty" := Str(DifficultyName(s.difficulty))]
  }

  function DifficultyOf(v: Value): Option<Difficulty> {
    if v == Str("easy") then Some(Easy)
    else if v == Str("medium") then Some(Medium)
    else if v == Str("hard") then Some(Hard)
    else None
  }

  /** The typed reading of a settings object, when both fields have their declared types. */
  function SettingsOf(props: map<string, Value>): (r: Option<LobbySettings>)
    ensures r.Some? ==> SettingsProps(r.value).Keys <= props.Keys
    ensures r.Some? ==> forall k :: k in SettingsProps(r.value) ==> props[k] == SettingsProps(r.value)[k]
  {
    if "winScore" in props && props["winScore"].Num? && "difficulty" in props
    then
      match DifficultyOf(props["difficulty"])
      case Some(d) => Some(LobbySettings(props["winScore"].n, d))
      case None => None
    else None
  }

  lemma SettingsRoundTrip(s: LobbySettings)
    ensures SettingsOf(SettingsProps(s)) == Some(s)
  {
  }

  /**
   * A frame as it is serialised onto the socket: a TransferAction (`error: false`,
   * stamped with actor and timestamp) or an ErrorAction (`type: "error"`,
   * `error: true`, no `data`). `code == None` is `NaN`, which JSON writes as `null`.
   */
  datatype Frame =
    | TransferFrame(kind: string, actor: Actor, data: Value, timestamp: int)
    | ErrorFrame(name: string, code: Option<int>, message: Option<string>)

  /** The JSON object a frame serialises to, as the peer's `JSON.parse` returns it. */
  function FrameValue(f: Frame): Value {
    match f
    case TransferFrame(kind, actor, data, timestamp) =>
      Obj(map["error" := Bool(false), "type" := Str(kind), "actor" := Str(ActorName(actor)),
              "data" := data, "timestamp" := Num(timestamp)])
    case ErrorFrame(name, code, message) =>
      Obj(map["type" := Str("error"), "error" := Bool(true), "name" := Str(name),
              "code" := (if code.Some? then Num(code.value) else Null),
              "message" := (if message.Some? then Str(message.value) else Null)])
  }
}
