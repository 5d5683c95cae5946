/**
 * The server's reply function (`onClientAction` of `server/server.js`) as a
 * stateless map from one received action to the actions it dispatches back, and
 * the port check of `init`. The session ID and the lobby-code bytes the router
 * would draw are parameters.
 */
module ServerRouter {
  import opened Wrappers
  import opened JsValue
  import opened JsNumber
  import opened LobbyCode
  import opened LobbyDefaults
  import CommonLobby

  /** `cfg.defaultServerPort`. */
  const DefaultServerPort := 6941

  function PortError(port: Option<int>): string {
    "Can't create websocket server with port '" + (if port.Some? then IntToDecimal(port.value) else "NaN") + "'"
  }

  /**
   * `init(port)`: an omitted port is the default; otherwise `parseInt(port)`,
   * rejected when it is `NaN` or below 1.
   */
  function InitPort(port: Value): (r: Result<int, JsError>)
    ensures r.Ok? ==> r.value >= 1
    ensures port.Undefined? ==> r == Ok(DefaultServerPort)
    ensures port.Num? ==> (r.Ok? <==> port.n >= 1) && (r.Ok? ==> r.value == port.n)
    ensures port.Str? ==> (r.Ok? <==> ParseInt(port.s).Some? && ParseInt(port.s).value >= 1)
    ensures port.Str? && r.Ok? ==> Some(r.value) == ParseInt(port.s)
  {
    var p := if port.Undefined? then Num(DefaultServerPort) else port;
    NumberPortParses(p);
    CheckPort(ParseInt(ToJsString(p)))
  }

  /** A numeric port goes through `parseInt(String(port))` unchanged. */
  lemma NumberPortParses(p: Value)
    ensures p.Num? ==> ParseInt(ToJsString(p)) == Some(p.n)
  {
    if p.Num? {
      ParseIntRoundTrip(p.n);
    }
  }

  /** The `isNaN(port) || port < 1` guard on the parsed port. */
  function CheckPort(parsed: Option<int>): (r: Result<int, JsError>)
    ensures r.Ok? <==> parsed.Some? && parsed.value >= 1
    ensures r.Ok? ==> Some(r.value) == parsed
  {
    if parsed.None? || parsed.value < 1 then Err(TypeError(PortError(parsed)))
    else Ok(parsed.value)
  }

  /** `sanitizeUsername`: a placeholder that returns its argument. */
  function SanitizeUsername(username: Value): (r: Value)
    ensures r == username
  {
    username
  }

  /** A reply as the router hands it to `dispatch`: `{ type, data }`. */
  function Reply(kind: string, data: Value): Value {
    Obj(map["type" := Str(kind), "data" := data])
  }

  /** The object destructuring `const { key } = v`, which throws for `null` and `undefined`. */
  function Destructure(v: Value, key: string): Result<Value, JsError> {
    match v
    case Undefined => Err(TypeError("Cannot destructure property '" + key + "' of 'action' as it is undefined."))
    case Null => Err(TypeError("Cannot destructure property '" + key + "' of 'action' as it is null."))
    case _ => Get(v, key)
  }

  /** The action cannot even be destructured, or a handler reads a property of missing data. */
  predicate RouterThrows(action: Value) {
    || action.Undefined? || action.Null?
    || (var kind := Get(action, "type").value;
        var data := Get(action, "data").value;
        (kind == Str("handshake") || kind == Str("changeLobbySettings")) && (data.Undefined? || data.Null?))
  }

  /**
   * `onClientAction(action, hand)`: the list of actions it passes to
   * `hand.dispatch`. `uuid` is what `randomUUID` returns and `draw` what
   * `randomBytes(6)` returns inside `Lobby.generateLobbyID`.
   */
  function OnClientAction(action: Value, uuid: string, draw: SixBytes): (r: Result<seq<Value>, JsError>)
    ensures r.Err? <==> RouterThrows(action)
    ensures r.Ok? ==> |r.value| <= 1
    ensures r.Ok? ==> forall i :: 0 <= i < |r.value| ==>
      r.value[i].Obj? && r.value[i].props.Keys == {"type", "data"} && r.value[i].props["type"].Str?
  {
    var kind :- Destructure(action, "type");
    var data := Get(action, "data").value;
    if kind == Str("handshake") then
      var username :- Get(data, "username");
      Ok([Reply("ackHandshake", Obj(map["finalUsername" := SanitizeUsername(username), "sessionID" := Str(uuid)]))])
    else if kind == Str("createLobby") then
      var lobbyID := CommonLobby.GenerateLobbyId(draw);
      Ok([Reply("ackJoinLobby", Obj(map["lobbyID" := Str(lobbyID), "initialSettings" := Obj(DefaultSettings())]))])
    else if kind == Str("joinLobby") then
      Ok([])
    else if kind == Str("changeLobbySettings") then
      var newSettings :- Get(data, "settings");
      Ok([Reply("broadcastLobbySettings", newSettings)])
    else
      Ok([])
  }
}
