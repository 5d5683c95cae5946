/**
 * One connection's ActionHandler as a state record: lifecycle flag, the three
 * timestamps, and logs of what it sent, emitted and asked the socket to do.
 * Socket callbacks become transition functions; clock readings and `JSON.parse`
 * results are their parameters.
 */
module ActionHandler {
  import opened Wrappers
  import opened JsValue
  import opened JsNumber
  import opened Actions

  /** The outcome of `JSON.parse` on an inbound frame. */
  datatype ParseOutcome = Malformed(reason: string) | Parsed(value: Value)

  /** What the handler reports through its "error" event. */
  datatype Fault =
    | Thrown(e: JsError)
    | ErrorActionDispatched(action: Value)
    | SocketFault(reason: string)

  datatype Event =
    | ActionEvent(action: Value)
    | ErrorEvent(fault: Fault)
    | CloseEvent(code: int, reason: string)

  /** `None` is a `sock.close()` without a code. */
  type CloseCode = Option<int>

  datatype Handler = Handler(
    actor: Actor,
    open: bool,
    lastDispatch: int,
    lastReceive: int,
    lastMessageTimestamp: int,
    timeout: int,
    outbox: seq<Frame>,
    events: seq<Event>,
    closeRequests: seq<CloseCode>)

  /** WebSocket close code "invalid frame payload data" (section 7.4.1 of RFC 6455). */
  const UnsupportedPayload := 1007
  /** WebSocket close code "internal error" (section 7.4.1 of RFC 6455). */
  const ServerError := 1011
  /** Error-table code for a frame that is valid JSON but not a valid action. */
  const InvalidActionCode := "101"
  /** Error-table code for a frame that could not be parsed. */
  const UnparsableCode := "102"
  const UnknownErrorName := "Unknown Error"
  const DefaultTimeout := 5000

  /** The constructor: only the two known actors, and only over a WebSocket. */
  function New(actor: Value, isWebSocket: bool): (r: Result<Handler, JsError>)
    ensures r.Ok? <==> (actor == Str("server") || actor == Str("client")) && isWebSocket
    ensures r.Ok? ==> actor == Str(ActorName(r.value.actor))
    ensures r.Ok? ==> !r.value.open
    ensures r.Ok? ==> r.value.lastDispatch == -1 && r.value.lastReceive == -1 && r.value.lastMessageTimestamp == -1
    ensures r.Ok? ==> r.value.outbox == [] && r.value.events == [] && r.value.closeRequests == []
  {
    match ActorOf(actor)
    case None => Err(TypeError("Can't create ActionHandler, actor is invalid"))
    case Some(a) =>
      if !isWebSocket then Err(TypeError("Can't create ActionHandler, socket is not an instance of WebSocket"))
      else Ok(Handler(a, false, -1, -1, -1, DefaultTimeout, [], [], []))
  }

  // ---------------------------------------------------------------------------
  // The shape gate

  /** `static isValidAction(action)`; `Err` is the TypeError it throws. */
  function IsValidAction(v: Value): (r: Result<bool, JsError>)
    ensures r == Ok(true) <==> WellShaped(v)
    ensures r.Err? <==> NullShaped(v)
    ensures TypeOf(v) != "object" ==> r == Ok(false)
  {
    if TypeOf(v) != "object" then Ok(false)
    else
      var kind :- Get(v, "type");
      if !kind.Str? then Ok(false)
      else if kind.s == "error" then Ok(true)
      else
        var data := Get(v, "data").value;
        if TypeOf(data) != "object" then Ok(false)
        else
          var n :- KeyCount(data);
          Ok(n != 0)
  }

  /**
   * An action object in the sense of the protocol: a plain object whose `type`
   * is a string, and which, unless it is an error, carries a non-empty object or
   * array as `data`.
   */
  predicate WellShaped(v: Value) {
    && v.Obj?
    && "type" in v.props && v.props["type"].Str?
    && (v.props["type"].s == "error" ||
        ("data" in v.props &&
         ((v.props["data"].Obj? && |v.props["data"].props| > 0) ||
          (v.props["data"].Arr? && |v.props["data"].items| > 0))))
  }

  /** The shapes on which `isValidAction` throws instead of answering. */
  predicate NullShaped(v: Value) {
    || v == Null
    || (&& v.Obj?
        && "type" in v.props && v.props["type"].Str? && v.props["type"].s != "error"
        && "data" in v.props && v.props["data"] == Null)
  }

  // ---------------------------------------------------------------------------
  // Sending

  /** The condition on line 211: the socket is closed when it holds. */
  function CloseAfterError(sendFailed: bool, closeCode: CloseCode): (r: bool)
    ensures r
  {
    sendFailed || closeCode != None || closeCode != Some(-1)
  }

  /** `errors?.[errCode]?.name ?? "Unknown Error"` over the error table. */
  function ErrorName(errors: map<string, string>, errCode: string): (name: string)
    ensures errCode in errors ==> name == errors[errCode]
    ensures errCode !in errors ==> name == UnknownErrorName
  {
    if errCode in errors then errors[errCode] else UnknownErrorName
  }

  /** The `message` an ErrorAction carries: an empty or non-string message becomes `null`. */
  function MessageOrNull(message: Value): (m: Option<string>)
    ensures m.Some? <==> message.Str? && message.s != ""
    ensures m.Some? ==> Str(m.value) == message
  {
    if message.Str? && |message.s| != 0 then Some(message.s) else None
  }

  /**
   * `respondError(closeCode, errCode, message)`: while open, send one ErrorAction
   * and, from the send callback, ask the socket to close with `closeCode`, be it
   * 1007, 1011, -1 or absent.
   */
  function RespondError(h: Handler, closeCode: CloseCode, errCode: string, message: Value,
                        errors: map<string, string>, sendFailed: bool): (r: Handler)
    ensures !h.open ==> r == h
    ensures h.open ==> r == h.(
      outbox := h.outbox + [ErrorFrame(ErrorName(errors, errCode), ParseInt(errCode), MessageOrNull(message))],
      closeRequests := h.closeRequests + [closeCode])
  {
    if !h.open then h
    else
      var frame := ErrorFrame(ErrorName(errors, errCode), ParseInt(errCode), MessageOrNull(message));
      var closes := if CloseAfterError(sendFailed, closeCode) then [closeCode] else [];
      h.(outbox := h.outbox + [frame], closeRequests := h.closeRequests + closes)
  }

  /** `action.data.internalLatency = latency`, as the frame then serialises. */
  function WithLatency(data: Value, latency: int): Value {
    match data
    case Obj(props) => Obj(props["internalLatency" := Num(latency)])
    case _ => data  // a property set on an array is not serialised
  }

  function Max(a: int, b: int): int {
    if a < b then b else a
  }

  /**
   * An action `dispatch` sends: an object whose `type` is a string other than
   * "error" and whose `data` is an object, an array or `null` (but not `null`
   * for "pong", whose data the latency is written into).
   */
  predicate Dispatchable(action: Value) {
    && action.Obj?
    && "type" in action.props && action.props["type"].Str?
    && action.props["type"].s != "error"
    && "data" in action.props
    && var data := action.props["data"];
       (data.Obj? || data.Arr? || (data.Null? && action.props["type"].s != "pong"))
  }

  function Emit(h: Handler, f: Fault): Handler {
    h.(events := h.events + [ErrorEvent(f)])
  }

  /**
   * `dispatch(action)` with `now` the reading of `Date.now()` that stamps the
   * frame and `later` the one the pong latency is computed from.
   */
  function Dispatch(h: Handler, action: Value, now: int, later: int): (r: Handler)
    ensures !h.open ==> r == h
    ensures h.open && Dispatchable(action) ==>
      && r == h.(lastDispatch := now, outbox := r.outbox)
      && |r.outbox| == |h.outbox| + 1 && r.outbox[..|h.outbox|] == h.outbox
      && var f := r.outbox[|h.outbox|];
         && f.TransferFrame? && Str(f.kind) == action.props["type"]
         && f.actor == h.actor && f.timestamp == now
         && (f.kind != "pong" ==> f.data == action.props["data"])
    ensures h.open && !Dispatchable(action) ==>
      && r == h.(events := r.events)
      && |r.events| == |h.events| + 1 && r.events[..|h.events|] == h.events
      && r.events[|h.events|].ErrorEvent?
  {
    if !h.open then h
    else if TypeOf(action) != "object" then Emit(h, Thrown(TypeError("Action is not an object")))
    else
      match Get(action, "type")
      case Err(e) => Emit(h, Thrown(e))
      case Ok(kind) =>
        if kind == Str("error") then Emit(h, ErrorActionDispatched(action))
        else if !kind.Str? then Emit(h, Thrown(TypeError("Action type is invalid")))
        else
          var data := Get(action, "data").value;
          if TypeOf(data) != "object" then Emit(h, Thrown(TypeError("Action data is not a valid object")))
          else if kind.s == "pong" && data == Null then
            Emit(h, Thrown(TypeError("Cannot set properties of null (setting 'internalLatency')")))
          else
            var sent := if kind.s == "pong" then WithLatency(data, Max(-1, later - h.lastMessageTimestamp)) else data;
            h.(lastDispatch := now, outbox := h.outbox + [TransferFrame(kind.s, h.actor, sent, now)])
  }

  /** A pong carries the time since the last inbound message, never below -1. */
  lemma PongLatency(h: Handler, props: map<string, Value>, data: map<string, Value>, now: int, later: int)
    requires h.open
    requires "type" in props && props["type"] == Str("pong")
    requires "data" in props && props["data"] == Obj(data)
    ensures var r := Dispatch(h, Obj(props), now, later);
      && |r.outbox| == |h.outbox| + 1
      && var f := r.outbox[|h.outbox|];
         && f.TransferFrame? && f.data.Obj?
         && f.data.props == data["internalLatency" := Num(Max(-1, later - h.lastMessageTimestamp))]
         && f.data.props["internalLatency"].n >= -1
         && (later - h.lastMessageTimestamp >= -1 ==> f.data.props["internalLatency"].n == later - h.lastMessageTimestamp)
  {
    assert Dispatchable(Obj(props));
  }

  // ---------------------------------------------------------------------------
  // Receiving and socket events

  function ShapeErrorMessage(a: Actor): string {
    "The payload data you sent to this " + ActorName(a)
      + " is not a valid action (type or data properties are invalid / missing)"
  }

  function ParseErrorMessage(a: Actor, reason: string): string {
    "The payload data you sent could not be parsed by this recipient " + ActorName(a) + ":\n" + reason
  }

  /**
   * The socket's "message" handler: mark the connection open, stamp the message
   * time (`now`), then answer a frame that does not parse (or on which the shape
   * gate throws) with error 102, a badly shaped one with error 101, and emit a
   * valid one as an "action" event stamped `later`.
   */
  function OnMessage(h: Handler, parsed: ParseOutcome, now: int, later: int,
                     errors: map<string, string>, sendFailed: bool): (r: Handler)
    ensures r.open && r.lastMessageTimestamp == now
    ensures r.actor == h.actor && r.lastDispatch == h.lastDispatch
  {
    var h1 := h.(open := true, lastMessageTimestamp := now);
    match parsed
    case Malformed(reason) =>
      RespondError(h1, Some(UnsupportedPayload), UnparsableCode, Str(ParseErrorMessage(h.actor, reason)), errors, sendFailed)
    case Parsed(v) =>
      match IsValidAction(v)
      case Err(e) =>
        RespondError(h1, Some(UnsupportedPayload), UnparsableCode, Str(ParseErrorMessage(h.actor, ErrorString(e))), errors, sendFailed)
      case Ok(valid) =>
        if valid then h1.(lastReceive := later, events := h1.events + [ActionEvent(v)])
        else RespondError(h1, Some(UnsupportedPayload), InvalidActionCode, Str(ShapeErrorMessage(h.actor)), errors, sendFailed)
  }

  /** The socket's "open" event. */
  function OnOpen(h: Handler): (r: Handler)
    ensures r.open && r == h.(open := true)
  {
    h.(open := true)
  }

  /** The socket's "close" event: closed, and re-emitted as "close". */
  function OnClose(h: Handler, code: int, reason: string): (r: Handler)
    ensures !r.open && r.events == h.events + [CloseEvent(code, reason)]
    ensures r == h.(open := false, events := r.events)
  {
    h.(open := false, events := h.events + [CloseEvent(code, reason)])
  }

  /** The socket's "error" event, re-emitted as "error". */
  function OnSocketError(h: Handler, reason: string): (r: Handler)
    ensures r == h.(events := h.events + [ErrorEvent(SocketFault(reason))])
  {
    Emit(h, SocketFault(reason))
  }

  /** `close()`: no longer open at once, and the socket is asked to close. */
  function Close(h: Handler): (r: Handler)
    ensures !r.open && r.closeRequests == h.closeRequests + [None]
    ensures r == h.(open := false, closeRequests := r.closeRequests)
  {
    h.(open := false, closeRequests := h.closeRequests + [None])
  }
}
