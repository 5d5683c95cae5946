/** What each action type makes the router send, and how its replies fare in `dispatch`. */
module ServerRouterLemmas {
  import opened Wrappers
  import opened Chars
  import opened JsValue
  import opened JsNumber
  import opened Actions
  import opened LobbyCode
  import opened LobbyDefaults
  import opened ServerRouter
  import ActionHandler

  /** The `type` the router switches on, for an action it can destructure. */
  function KindOf(action: Value): Value
    requires !action.Undefined? && !action.Null?
  {
    Get(action, "type").value
  }

  function DataOf(action: Value): Value
    requires !action.Undefined? && !action.Null?
  {
    Get(action, "data").value
  }

  /** A handshake is answered by one `ackHandshake` carrying the username unchanged and the drawn ID. */
  lemma HandshakeReply(action: Value, uuid: string, draw: SixBytes)
    requires !action.Undefined? && !action.Null?
    requires KindOf(action) == Str("handshake")
    requires !DataOf(action).Undefined? && !DataOf(action).Null?
    ensures var r := OnClientAction(action, uuid, draw);
      && r.Ok? && |r.value| == 1
      && r.value[0].props["type"] == Str("ackHandshake")
      && var data := r.value[0].props["data"];
         && data.Obj? && data.props.Keys == {"finalUsername", "sessionID"}
         && data.props["finalUsername"] == Get(DataOf(action), "username").value
         && data.props["sessionID"] == Str(uuid)
  {
  }

  /**
   * Creating a lobby is answered by one `ackJoinLobby` with a valid six-letter
   * ID and the default settings; nothing is registered.
   */
  lemma CreateLobbyReply(action: Value, uuid: string, draw: SixBytes)
    requires !action.Undefined? && !action.Null?
    requires KindOf(action) == Str("createLobby")
    ensures var r := OnClientAction(action, uuid, draw);
      && r.Ok? && |r.value| == 1
      && r.value[0].props["type"] == Str("ackJoinLobby")
      && var data := r.value[0].props["data"];
         && data.Obj? && data.props.Keys == {"lobbyID", "initialSettings"}
         && IsValidLobbyId(data.props["lobbyID"])
         && data.props["initialSettings"] == Obj(DefaultSettings())
         && SettingsOf(data.props["initialSettings"].props) == Some(LobbySettings(8, Medium))
  {
  }

  /** Changing settings is echoed back unvalidated: the reply's data is exactly `data.settings`. */
  lemma ChangeSettingsReply(action: Value, uuid: string, draw: SixBytes)
    requires !action.Undefined? && !action.Null?
    requires KindOf(action) == Str("changeLobbySettings")
    requires !DataOf(action).Undefined? && !DataOf(action).Null?
    ensures var r := OnClientAction(action, uuid, draw);
      && r.Ok? && |r.value| == 1
      && r.value[0].props["type"] == Str("broadcastLobbySettings")
      && r.value[0].props["data"] == Get(DataOf(action), "settings").value
  {
  }

  /** Joining a lobby, and every type the switch does not name, is answered by nothing. */
  lemma UnansweredTypes(action: Value, uuid: string, draw: SixBytes)
    requires !action.Undefined? && !action.Null?
    requires KindOf(action) != Str("handshake") && KindOf(action) != Str("createLobby")
    requires KindOf(action) != Str("changeLobbySettings")
    ensures OnClientAction(action, uuid, draw) == Ok([])
  {
  }

  /**
   * The router answers only three of the declared action types, each with the
   * declared type that acknowledges it.
   */
  lemma RepliesFollowDeclaredTypes(action: Value, uuid: string, draw: SixBytes)
    ensures var r := OnClientAction(action, uuid, draw);
      r.Ok? && |r.value| > 0 ==>
        var asked := ActionTypeOf(KindOf(action));
        var answered := ActionTypeOf(r.value[0].props["type"]);
        || (asked == Some(Handshake) && answered == Some(AckHandshake))
        || (asked == Some(CreateLobby) && answered == Some(AckJoinLobby))
        || (asked == Some(ChangeLobbySettings) && answered == Some(BroadcastLobbySettings))
  {
    var r := OnClientAction(action, uuid, draw);
    if r.Ok? && |r.value| > 0 {
      ActionTypeRoundTrip(Handshake);
      ActionTypeRoundTrip(CreateLobby);
      ActionTypeRoundTrip(ChangeLobbySettings);
      ActionTypeRoundTrip(AckHandshake);
      ActionTypeRoundTrip(AckJoinLobby);
      ActionTypeRoundTrip(BroadcastLobbySettings);
    }
  }

  /**
   * The router is a function of the action alone, apart from the drawn IDs:
   * other draws change only the `sessionID` or `lobbyID` value.
   */
  lemma OnlyIdsDependOnDraws(action: Value, u1: string, d1: SixBytes, u2: string, d2: SixBytes)
    ensures var r1 := OnClientAction(action, u1, d1);
      var r2 := OnClientAction(action, u2, d2);
      && r1.Err? == r2.Err?
      && (r1.Ok? ==>
            && |r1.value| == |r2.value|
            && forall i :: 0 <= i < |r1.value| ==> r1.value[i].props["type"] == r2.value[i].props["type"])
      && ((&& !action.Undefined? && !action.Null?
           && KindOf(action) != Str("handshake") && KindOf(action) != Str("createLobby")) ==> r1 == r2)
  {
  }

  /**
   * Every handshake or lobby reply is an action `dispatch` sends; a settings
   * echo is sent exactly when the client's `settings` is an object (or `null`).
   */
  lemma RepliesDispatchable(action: Value, uuid: string, draw: SixBytes)
    requires OnClientAction(action, uuid, draw).Ok?
    requires |OnClientAction(action, uuid, draw).value| == 1
    ensures var reply := OnClientAction(action, uuid, draw).value[0];
      && (KindOf(action) != Str("changeLobbySettings") ==> ActionHandler.Dispatchable(reply))
      && (KindOf(action) == Str("changeLobbySettings") ==>
            (ActionHandler.Dispatchable(reply) <==> TypeOf(Get(DataOf(action), "settings").value) == "object"))
  {
  }

  /**
   * End to end on the sending side: echoing non-object settings through an open
   * handler sends nothing and raises one "error" event.
   */
  lemma NonObjectSettingsRaiseError(h: ActionHandler.Handler, action: Value, uuid: string, draw: SixBytes, now: int, later: int)
    requires h.open
    requires !action.Undefined? && !action.Null?
    requires KindOf(action) == Str("changeLobbySettings")
    requires !DataOf(action).Undefined? && !DataOf(action).Null?
    requires TypeOf(Get(DataOf(action), "settings").value) != "object"
    ensures var reply := OnClientAction(action, uuid, draw).value[0];
      var h2 := ActionHandler.Dispatch(h, reply, now, later);
      && h2.outbox == h.outbox
      && |h2.events| == |h.events| + 1 && h2.events[|h.events|].ErrorEvent?
  {
    ChangeSettingsReply(action, uuid, draw);
    RepliesDispatchable(action, uuid, draw);
  }

  /** A port string starting with a decimal number is accepted exactly when that number is at least 1. */
  lemma InitPortDecimalPrefix(n: int, rest: string)
    requires rest == [] || !IsDigit(rest[0])
    requires n == 0 && rest != [] ==> rest[0] != 'x' && rest[0] != 'X'
    ensures InitPort(Str(IntToDecimal(n) + rest)).Ok? <==> n >= 1
    ensures InitPort(Str(IntToDecimal(n) + rest)).Ok? ==> InitPort(Str(IntToDecimal(n) + rest)).value == n
  {
    ParseIntOfDecimal(n, rest);
    InitPortOfParsed(IntToDecimal(n) + rest, n);
  }

  /** A string port is judged by what `parseInt` makes of it. */
  lemma InitPortOfParsed(s: string, n: int)
    requires ParseInt(s) == Some(n)
    ensures InitPort(Str(s)).Ok? <==> n >= 1
    ensures InitPort(Str(s)).Ok? ==> InitPort(Str(s)).value == n
  {
  }

  /** A port string without digits is `NaN` and rejected. */
  lemma InitPortWithoutDigits(s: string)
    requires forall i :: 0 <= i < |s| ==> !IsDigit(s[i])
    ensures InitPort(Str(s)).Err?
  {
    ParseIntWithoutDigits(s);
  }
}
