/** Properties of the ActionHandler model that relate several transitions. */
module ActionHandlerLemmas {
  import opened Wrappers
  import opened JsValue
  import opened JsNumber
  import opened Actions
  import opened ActionHandler

  /** The two error-table codes the receive path uses read back as numbers. */
  lemma ErrorCodesParse()
    ensures ParseInt(InvalidActionCode) == Some(101)
    ensures ParseInt(UnparsableCode) == Some(102)
  {
    assert DigitChar(0) == '0' && DigitChar(1) == '1' && DigitChar(2) == '2';
    assert NatToDecimal(1) == "1";
    assert NatToDecimal(10) == NatToDecimal(1) + "0" == "10";
    assert NatToDecimal(101) == NatToDecimal(10) + "1" == "101";
    assert NatToDecimal(102) == NatToDecimal(10) + "2" == "102";
    ParseIntRoundTrip(101);
    ParseIntRoundTrip(102);
  }

  /** An open handler answering with a known numeric code and a non-empty message. */
  lemma RespondErrorSent(h: Handler, closeCode: CloseCode, errCode: string, code: int, message: string,
                         errors: map<string, string>, sendFailed: bool)
    requires h.open && ParseInt(errCode) == Some(code) && |message| > 0
    ensures RespondError(h, closeCode, errCode, Str(message), errors, sendFailed)
         == h.(outbox := h.outbox + [ErrorFrame(ErrorName(errors, errCode), Some(code), Some(message))],
               closeRequests := h.closeRequests + [closeCode])
  {
  }

  /** The receive path for a frame `JSON.parse` rejected. */
  lemma OnMessageUnparsable(h: Handler, reason: string, now: int, later: int,
                            errors: map<string, string>, sendFailed: bool)
    ensures OnMessage(h, Malformed(reason), now, later, errors, sendFailed)
         == RespondError(h.(open := true, lastMessageTimestamp := now), Some(1007), "102",
                         Str(ParseErrorMessage(h.actor, reason)), errors, sendFailed)
  {
  }

  /** A frame that does not parse is answered with error 102 and a 1007 close request; nothing is emitted. */
  lemma OnMessageMalformed(h: Handler, reason: string, now: int, later: int,
                           errors: map<string, string>, sendFailed: bool)
    ensures OnMessage(h, Malformed(reason), now, later, errors, sendFailed)
         == h.(open := true, lastMessageTimestamp := now,
               outbox := h.outbox + [ErrorFrame(ErrorName(errors, "102"), Some(102), Some(ParseErrorMessage(h.actor, reason)))],
               closeRequests := h.closeRequests + [Some(1007)])
  {
    OnMessageUnparsable(h, reason, now, later, errors, sendFailed);
    ErrorCodesParse();
    assert |ParseErrorMessage(h.actor, reason)| > 0;
    RespondErrorSent(h.(open := true, lastMessageTimestamp := now), Some(1007), UnparsableCode, 102,
                     ParseErrorMessage(h.actor, reason), errors, sendFailed);
  }

  /** The receive path once the shape gate has answered `false`. */
  lemma OnMessageRejected(h: Handler, v: Value, now: int, later: int,
                          errors: map<string, string>, sendFailed: bool)
    requires IsValidAction(v) == Ok(false)
    ensures OnMessage(h, Parsed(v), now, later, errors, sendFailed)
         == RespondError(h.(open := true, lastMessageTimestamp := now), Some(1007), "101",
                         Str(ShapeErrorMessage(h.actor)), errors, sendFailed)
  {
  }

  /** A parsed frame that fails the shape gate is answered with error 101 and a 1007 close request. */
  lemma OnMessageBadShape(h: Handler, v: Value, now: int, later: int,
                          errors: map<string, string>, sendFailed: bool)
    requires !WellShaped(v) && !NullShaped(v)
    ensures OnMessage(h, Parsed(v), now, later, errors, sendFailed)
         == h.(open := true, lastMessageTimestamp := now,
               outbox := h.outbox + [ErrorFrame(ErrorName(errors, "101"), Some(101), Some(ShapeErrorMessage(h.actor)))],
               closeRequests := h.closeRequests + [Some(1007)])
  {
    OnMessageRejected(h, v, now, later, errors, sendFailed);
    ErrorCodesParse();
    assert |ShapeErrorMessage(h.actor)| > 0;
    RespondErrorSent(h.(open := true, lastMessageTimestamp := now), Some(1007), InvalidActionCode, 101,
                     ShapeErrorMessage(h.actor), errors, sendFailed);
  }

  /** The receive path once the shape gate has thrown `e`. */
  lemma OnMessageGateThrew(h: Handler, v: Value, e: JsError, now: int, later: int,
                           errors: map<string, string>, sendFailed: bool)
    requires IsValidAction(v) == Err(e)
    ensures OnMessage(h, Parsed(v), now, later, errors, sendFailed)
         == RespondError(h.(open := true, lastMessageTimestamp := now), Some(1007), "102",
                         Str(ParseErrorMessage(h.actor, ErrorString(e))), errors, sendFailed)
  {
  }

  /**
   * `null`, or an action whose data is `null`, makes the shape gate throw; the
   * surrounding catch answers it as an unparsable frame (error 102).
   */
  lemma OnMessageShapeThrows(h: Handler, v: Value, now: int, later: int,
                             errors: map<string, string>, sendFailed: bool)
    requires NullShaped(v)
    ensures exists e: JsError ::
      OnMessage(h, Parsed(v), now, later, errors, sendFailed)
        == h.(open := true, lastMessageTimestamp := now,
              outbox := h.outbox + [ErrorFrame(ErrorName(errors, "102"), Some(102), Some(ParseErrorMessage(h.actor, ErrorString(e))))],
              closeRequests := h.closeRequests + [Some(1007)])
  {
    var e := IsValidAction(v).error;
    OnMessageGateThrew(h, v, e, now, later, errors, sendFailed);
    ErrorCodesParse();
    assert |ParseErrorMessage(h.actor, ErrorString(e))| > 0;
    RespondErrorSent(h.(open := true, lastMessageTimestamp := now), Some(1007), UnparsableCode, 102,
                     ParseErrorMessage(h.actor, ErrorString(e)), errors, sendFailed);
  }

  /** A well-shaped frame yields exactly one "action" event and stamps `lastReceive`; nothing is sent. */
  lemma OnMessageValid(h: Handler, v: Value, now: int, later: int,
                       errors: map<string, string>, sendFailed: bool)
    requires WellShaped(v)
    ensures OnMessage(h, Parsed(v), now, later, errors, sendFailed)
         == h.(open := true, lastMessageTimestamp := now, lastReceive := later, events := h.events + [ActionEvent(v)])
  {
  }

  /**
   * Every inbound frame has exactly one visible consequence: one frame sent or
   * one event emitted, and it is an "action" event exactly when the frame parsed
   * to a well-shaped action.
   */
  lemma OnMessageOneOutcome(h: Handler, parsed: ParseOutcome, now: int, later: int,
                            errors: map<string, string>, sendFailed: bool)
    ensures var r := OnMessage(h, parsed, now, later, errors, sendFailed);
      && |r.outbox| + |r.events| == |h.outbox| + |h.events| + 1
      && (|r.events| > |h.events| <==> parsed.Parsed? && WellShaped(parsed.value))
      && (|r.events| > |h.events| ==> r.events[|h.events|] == ActionEvent(parsed.value))
  {
    match parsed
    case Malformed(reason) =>
      OnMessageMalformed(h, reason, now, later, errors, sendFailed);
    case Parsed(v) =>
      if WellShaped(v) {
        OnMessageValid(h, v, now, later, errors, sendFailed);
      } else if NullShaped(v) {
        OnMessageShapeThrows(h, v, now, later, errors, sendFailed);
      } else {
        OnMessageBadShape(h, v, now, later, errors, sendFailed);
      }
  }

  /** `dispatch` of an action whose type is "error" reports it locally and sends nothing. */
  lemma DispatchOfErrorAction(h: Handler, props: map<string, Value>, now: int, later: int)
    requires h.open
    requires "type" in props && props["type"] == Str("error")
    ensures Dispatch(h, Obj(props), now, later) == h.(events := h.events + [ErrorEvent(ErrorActionDispatched(Obj(props)))])
  {
  }

  /** A sequence of `dispatch` calls, each with its two clock readings. */
  function DispatchAll(h: Handler, calls: seq<(Value, int, int)>): Handler
    decreases |calls|
  {
    if |calls| == 0 then h
    else DispatchAll(Dispatch(h, calls[0].0, calls[0].1, calls[0].2), calls[1..])
  }

  /** After `close()`, no run of `dispatch` calls sends or changes anything. */
  lemma {:induction false} DispatchAllAfterClose(h: Handler, calls: seq<(Value, int, int)>)
    ensures DispatchAll(Close(h), calls) == Close(h)
    decreases |calls|
  {
    if |calls| > 0 {
      assert Dispatch(Close(h), calls[0].0, calls[0].1, calls[0].2) == Close(h);
      DispatchAllAfterClose(h, calls[1..]);
    }
  }

  /** While the handler is not open, no run of `dispatch` calls changes anything. */
  lemma {:induction false} DispatchAllWhileClosed(h: Handler, calls: seq<(Value, int, int)>)
    requires !h.open
    ensures DispatchAll(h, calls) == h
    decreases |calls|
  {
    if |calls| > 0 {
      assert Dispatch(h, calls[0].0, calls[0].1, calls[0].2) == h;
      DispatchAllWhileClosed(h, calls[1..]);
    }
  }

  /**
   * After the socket's "close" event, `dispatch` and `respondError` go quiet:
   * nothing is sent, emitted or closed until an inbound frame arrives.
   */
  lemma DispatchAllAfterSocketClose(h: Handler, code: int, reason: string, calls: seq<(Value, int, int)>,
                                    closeCode: CloseCode, errCode: string, message: Value,
                                    errors: map<string, string>, sendFailed: bool)
    ensures DispatchAll(OnClose(h, code, reason), calls) == OnClose(h, code, reason)
    ensures RespondError(OnClose(h, code, reason), closeCode, errCode, message, errors, sendFailed)
         == OnClose(h, code, reason)
  {
    DispatchAllWhileClosed(OnClose(h, code, reason), calls);
  }

  /** The socket's "open" event undoes `close()`: `dispatch` appends a frame to the outbox again. */
  lemma OpenAfterCloseDispatches(h: Handler, action: Value, now: int, later: int)
    requires Dispatchable(action)
    ensures !Close(h).open && OnOpen(Close(h)).open
    ensures |Dispatch(OnOpen(Close(h)), action, now, later).outbox| == |h.outbox| + 1
  {
  }

  /** A socket error is only reported: the handler stays as open as it was, and `dispatch` still sends. */
  lemma SocketErrorKeepsOpen(h: Handler, reason: string, action: Value, now: int, later: int)
    requires h.open && Dispatchable(action)
    ensures OnSocketError(h, reason).open
    ensures |Dispatch(OnSocketError(h, reason), action, now, later).outbox| == |h.outbox| + 1
  {
  }

  /** A run of `dispatch` calls only ever appends to the outbox, and never closes or opens. */
  lemma {:induction false} DispatchAllOnlyAppends(h: Handler, calls: seq<(Value, int, int)>)
    ensures var r := DispatchAll(h, calls);
      && |h.outbox| <= |r.outbox| && r.outbox[..|h.outbox|] == h.outbox
      && r.open == h.open && r.closeRequests == h.closeRequests
      && |r.outbox| - |h.outbox| <= |calls|
    decreases |calls|
  {
    if |calls| > 0 {
      var h1 := Dispatch(h, calls[0].0, calls[0].1, calls[0].2);
      DispatchAllOnlyAppends(h1, calls[1..]);
      var r := DispatchAll(h1, calls[1..]);
      assert r.outbox[..|h.outbox|] == r.outbox[..|h1.outbox|][..|h.outbox|];
    }
  }

  /**
   * `close()` does not stop the handler for good: an inbound frame that arrives
   * before the socket's "close" event sets `open` again, and `dispatch` appends
   * a frame to the outbox again.
   */
  lemma MessageAfterCloseReopens(h: Handler, v: Value, action: Value, t0: int, t1: int, t2: int, t3: int,
                                 errors: map<string, string>, sendFailed: bool)
    requires WellShaped(v) && Dispatchable(action)
    ensures var r := OnMessage(Close(h), Parsed(v), t0, t1, errors, sendFailed);
      && r.open
      && |Dispatch(r, action, t2, t3).outbox| == |h.outbox| + 1
  {
    OnMessageValid(Close(h), v, t0, t1, errors, sendFailed);
  }

  /**
   * What one handler sends, the peer's shape gate accepts: error frames always,
   * transfer frames whenever their data is a non-empty object or array.
   */
  lemma PeerAcceptsFrame(f: Frame)
    requires f.TransferFrame? ==>
      (f.data.Obj? && |f.data.props| > 0) || (f.data.Arr? && |f.data.items| > 0)
    ensures IsValidAction(FrameValue(f)) == Ok(true)
  {
  }

  /** A transfer frame with empty data is sent, but the peer answers it with error 101. */
  lemma PeerRejectsEmptyData(kind: string, a: Actor, ts: int)
    requires kind != "error"
    ensures IsValidAction(FrameValue(TransferFrame(kind, a, Obj(map[]), ts))) == Ok(false)
  {
    var v := FrameValue(TransferFrame(kind, a, Obj(map[]), ts));
    assert !WellShaped(v) by {
      assert v.props["data"] == Obj(map[]);
    }
    assert !NullShaped(v);
  }

  /**
   * End to end: a well-formed action dispatched by one handler and delivered to an
   * open peer is emitted there as an "action" event carrying the frame.
   */
  lemma DispatchThenReceive(h: Handler, peer: Handler, props: map<string, Value>, data: map<string, Value>,
                            now: int, later: int, t0: int, t1: int,
                            errors: map<string, string>, sendFailed: bool)
    requires h.open
    requires "type" in props && props["type"].Str? && props["type"].s != "error"
    requires "data" in props && props["data"] == Obj(data) && |data| > 0
    ensures var sent := Dispatch(h, Obj(props), now, later);
      && |sent.outbox| == |h.outbox| + 1
      && var f := sent.outbox[|h.outbox|];
         OnMessage(peer, Parsed(FrameValue(f)), t0, t1, errors, sendFailed).events
           == peer.events + [ActionEvent(FrameValue(f))]
  {
    assert Dispatchable(Obj(props));
    var sent := Dispatch(h, Obj(props), now, later);
    var f := sent.outbox[|h.outbox|];
    assert f.data.Obj? && |f.data.props| > 0 by {
      if f.kind == "pong" {
        assert f.data.props == data["internalLatency" := Num(Max(-1, later - h.lastMessageTimestamp))];
        assert "internalLatency" in f.data.props;
      } else {
        assert f.data == Obj(data);
      }
    }
    PeerAcceptsFrame(f);
    OnMessageValid(peer, FrameValue(f), t0, t1, errors, sendFailed);
  }
}
