/**
 * The server's lobby record (`server/Lobby.js`): an ID, settings merged over the
 * defaults, and an ordered user list that only grows at the end.
 */
module ServerLobby {
  import opened Wrappers
  import opened JsValue
  import opened Sanitize
  import opened SessionId
  import opened LobbyCode
  import opened LobbyDefaults

  /**
   * A lobby record. `users` holds what the constructor and `addUser` stored:
   * the constructor keeps its admin argument whatever it is, `addUser` pushes a
   * `{ username, sessionID, isAdmin }` object.
   */
  datatype Lobby = Lobby(lobbyID: string, settings: map<string, Value>, users: seq<Value>)

  const MinUsernameLength := 3

  /** The object `addUser` pushes. */
  function UserRecord(username: string, sessionID: string, isAdmin: bool): Value {
    Obj(map["username" := Str(username), "sessionID" := Str(sessionID), "isAdmin" := Bool(isAdmin)])
  }

  /** The constructor: throws for an invalid ID; the admin argument is the only user. */
  function NewLobby(lobbyID: Value, lobbyAdmin: Value, settings: Value): (r: Result<Lobby, JsError>)
    ensures r.Ok? <==> IsValidLobbyId(lobbyID)
    ensures r.Ok? ==> Str(r.value.lobbyID) == lobbyID
    ensures r.Ok? ==> r.value.users == [lobbyAdmin]
    ensures r.Ok? ==> r.value.settings == MergeSettings(settings)
  {
    if !IsValidLobbyId(lobbyID) then Err(TypeError("Invalid lobby ID"))
    else Ok(Lobby(lobbyID.s, DefaultSettings() + OwnSettings(settings), [lobbyAdmin]))
  }

  predicate UsernameAccepted(username: Value) {
    username.Str? && |username.s| >= MinUsernameLength
  }

  function UsernameError(username: Value): string {
    "Can't add user with username '" + ToJsString(username) + "', it is too short or of the wrong type"
  }

  function SessionIdError(sessionID: Value): string {
    "Can't add user with sessionID '" + ToJsString(sessionID) + "' as it is invalid"
  }

  /**
   * `addUser(username, sessionID, isAdmin)`: the username is checked first, then
   * the session ID with the anchored recogniser; anything but a boolean `isAdmin`
   * counts as `false`.
   */
  function AddUser(l: Lobby, username: Value, sessionID: Value, isAdmin: Value): (r: Result<Lobby, JsError>)
    ensures r.Ok? <==> UsernameAccepted(username) && MatchSessIdAnchored(sessionID).Some?
    ensures !UsernameAccepted(username) ==> r == Err(TypeError(UsernameError(username)))
    ensures r.Ok? ==>
      && r.value.lobbyID == l.lobbyID && r.value.settings == l.settings
      && |r.value.users| == |l.users| + 1
      && r.value.users[..|l.users|] == l.users
      && var u := r.value.users[|l.users|];
         && Get(u, "username") == Ok(username) && Get(u, "sessionID") == Ok(sessionID)
         && Get(u, "isAdmin") == Ok(Bool(isAdmin == Bool(true)))
  {
    if !UsernameAccepted(username) then Err(TypeError(UsernameError(username)))
    else match MatchSessIdAnchored(sessionID)
      case None => Err(TypeError(SessionIdError(sessionID)))
      case Some(_) =>
        var admin := if isAdmin.Bool? then isAdmin.b else false;
        Ok(l.(users := l.users + [UserRecord(username.s, sessionID.s, admin)]))
  }

  /**
   * The callback of `isAdmin`'s `find`, `usr.isAdmin && usr.sessionID === sessionID`,
   * on an entry it does not throw for.
   */
  predicate AdminEntry(usr: Value, sessionID: Value) {
    && !Nullish(usr)
    && Truthy(Get(usr, "isAdmin").value)
    && StrictEquals(Get(usr, "sessionID").value, sessionID)
  }

  /**
   * `users.find(usr => usr.isAdmin && usr.sessionID === sessionID)` from index
   * `from`: the first entry the callback accepts, or the throw of the first
   * `null` or `undefined` entry the scan reaches.
   */
  function FindAdmin(users: seq<Value>, sessionID: Value, from: nat): (r: Result<Option<nat>, JsError>)
    requires from <= |users|
    ensures r.Ok? ==>
      var end := if r.value.Some? then r.value.value else |users|;
      && from <= end <= |users|
      && (forall j :: from <= j < end ==> !Nullish(users[j]) && !AdminEntry(users[j], sessionID))
      && (r.value.Some? ==> end < |users| && AdminEntry(users[end], sessionID))
    ensures r.Err? ==>
      exists j :: from <= j < |users| && Nullish(users[j])
                  && forall k :: from <= k < j ==> !AdminEntry(users[k], sessionID)
    decreases |users| - from
  {
    if from == |users| then Ok(None)
    else
      var usr := users[from];
      match Get(usr, "isAdmin")
      case Err(e) => Err(e)
      case Ok(flag) =>
        if Truthy(flag) && StrictEquals(Get(usr, "sessionID").value, sessionID) then Ok(Some(from))
        else FindAdmin(users, sessionID, from + 1)
  }

  /**
   * `isAdmin(sessionID)`: `find(...) ? true : false`. It throws exactly when the
   * scan meets a `null` or `undefined` user before an admin; otherwise it tells
   * whether some user is an admin with this session ID by truthiness of `isAdmin`.
   */
  function IsAdmin(l: Lobby, sessionID: Value): (r: Result<bool, JsError>)
    ensures r.Err? <==> exists i :: 0 <= i < |l.users| && Nullish(l.users[i])
                                    && forall j :: 0 <= j < i ==> !AdminEntry(l.users[j], sessionID)
    ensures r.Ok? ==> (r.value <==> exists i :: 0 <= i < |l.users| && AdminEntry(l.users[i], sessionID))
  {
    match FindAdmin(l.users, sessionID, 0)
    case Err(e) => Err(e)
    case Ok(None) => Ok(false)
    case Ok(Some(i)) => Ok(Truthy(l.users[i]))
  }

  /**
   * `generateLobbyID` over a supply of `randomBytes(6)` draws: the first code
   * the content filter passes. `None` is a supply exhausted first.
   */
  function GenerateLobbyId(draws: seq<SixBytes>, words: seq<string>): (r: Option<string>)
    requires ValidFilter(words)
    ensures r.Some? ==> !NeedsSanit(r.value, words)
    ensures r.Some? ==> exists k :: 0 <= k < |draws| && CodeFromBytes(draws[k]) == r.value
                                   && forall j :: 0 <= j < k ==> NeedsSanit(CodeFromBytes(draws[j]), words)
    ensures r.None? <==> forall k :: 0 <= k < |draws| ==> NeedsSanit(CodeFromBytes(draws[k]), words)
    decreases |draws|
  {
    if |draws| == 0 then None
    else if !NeedsSanit(CodeFromBytes(draws[0]), words) then Some(CodeFromBytes(draws[0]))
    else
      var r := GenerateLobbyId(draws[1..], words);
      assert forall k :: 1 <= k < |draws| ==> draws[k] == draws[1..][k - 1];
      if r.Some? then
        var k :| 0 <= k < |draws[1..]| && CodeFromBytes(draws[1..][k]) == r.value
                 && forall j :: 0 <= j < k ==> NeedsSanit(CodeFromBytes(draws[1..][j]), words);
        assert CodeFromBytes(draws[k + 1]) == r.value;
        r
      else r
  }

  /** The V8 message for calling a binding that holds `undefined`. */
  const NeedsSanitNotAFunction := TypeError("needsSanit is not a function")

  /**
   * `generateLobbyID` as the file stands. Node resolves
   * `require("../common/sanitizeText")` to `sanitizeText.js`, whose export is
   * the bare `sanitizeText` function; it has no `needsSanit` property, so the
   * destructured binding is `undefined` and calling it on the first drawn code
   * throws. `Ok(None)` is an exhausted supply, as in `GenerateLobbyId`.
   */
  function GenerateLobbyIdAsWritten(draws: seq<SixBytes>): (r: Result<Option<string>, JsError>)
    ensures r.Err? <==> |draws| > 0
    ensures r.Err? ==> r.error == NeedsSanitNotAFunction
    ensures r.Ok? ==> r.value.None?
  {
    if |draws| == 0 then Ok(None)
    else Err(NeedsSanitNotAFunction)
  }
}
