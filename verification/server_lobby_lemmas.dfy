/** Properties of the server's lobby record relating several operations. */
module ServerLobbyLemmas {
  import opened Wrappers
  import opened JsValue
  import opened Sanitize
  import opened SessionId
  import opened LobbyCode
  import opened ServerLobby
  import SessionIdLemmas

  /** Entries appended after the list only matter when the scan runs off its end. */
  lemma {:induction false} FindAdminAppend(users: seq<Value>, more: seq<Value>, x: Value, from: nat)
    requires from <= |users|
    ensures FindAdmin(users, x, from) != Ok(None) ==> FindAdmin(users + more, x, from) == FindAdmin(users, x, from)
    ensures FindAdmin(users, x, from) == Ok(None) ==> FindAdmin(users + more, x, from) == FindAdmin(users + more, x, |users|)
    decreases |users| - from
  {
    if from < |users| {
      assert (users + more)[from] == users[from];
      FindAdminAppend(users, more, x, from + 1);
    }
  }

  /** The scan over one appended record that is not flagged admin finds nothing. */
  lemma ScanPastNonAdmin(users: seq<Value>, u: Value, x: Value)
    requires !Nullish(u) && !AdminEntry(u, x)
    ensures FindAdmin(users + [u], x, |users|) == Ok(None)
  {
    assert (users + [u])[|users|] == u;
  }

  /** Adding a user who is not an admin changes no session ID's admin status, nor whether the check throws. */
  lemma AddNonAdminKeepsAdmins(l: Lobby, username: Value, sessionID: Value, isAdmin: Value, x: Value)
    requires AddUser(l, username, sessionID, isAdmin).Ok?
    requires isAdmin != Bool(true)
    ensures IsAdmin(AddUser(l, username, sessionID, isAdmin).value, x) == IsAdmin(l, x)
  {
    var l2 := AddUser(l, username, sessionID, isAdmin).value;
    var u := l2.users[|l.users|];
    assert l2.users == l.users + [u];
    FindAdminAppend(l.users, [u], x, 0);
    var found := FindAdmin(l.users, x, 0);
    if found == Ok(None) {
      ScanPastNonAdmin(l.users, u, x);
    } else if found.Ok? {
      assert l2.users[found.value.value] == l.users[found.value.value];
    }
  }

  /** Adding users never takes admin status away. */
  lemma AddUserKeepsAdmins(l: Lobby, username: Value, sessionID: Value, isAdmin: Value, x: Value)
    requires AddUser(l, username, sessionID, isAdmin).Ok?
    requires IsAdmin(l, x) == Ok(true)
    ensures IsAdmin(AddUser(l, username, sessionID, isAdmin).value, x) == Ok(true)
  {
    var l2 := AddUser(l, username, sessionID, isAdmin).value;
    var u := l2.users[|l.users|];
    assert l2.users == l.users + [u];
    FindAdminAppend(l.users, [u], x, 0);
    var i := FindAdmin(l.users, x, 0).value.value;
    assert l2.users[i] == l.users[i];
  }

  /** An added admin is an admin, unless an earlier `null` or `undefined` user makes the check throw. */
  lemma AddAdminGrants(l: Lobby, username: Value, sessionID: Value)
    requires AddUser(l, username, sessionID, Bool(true)).Ok?
    ensures var r := IsAdmin(AddUser(l, username, sessionID, Bool(true)).value, sessionID);
      r == if IsAdmin(l, sessionID).Err? then IsAdmin(l, sessionID) else Ok(true)
  {
    var l2 := AddUser(l, username, sessionID, Bool(true)).value;
    var u := l2.users[|l.users|];
    assert l2.users == l.users + [u];
    FindAdminAppend(l.users, [u], sessionID, 0);
    var found := FindAdmin(l.users, sessionID, 0);
    if found == Ok(None) {
      assert AdminEntry(u, sessionID);
    } else if found.Ok? {
      assert l2.users[found.value.value] == l.users[found.value.value];
    }
  }

  /**
   * In a new lobby the admin argument decides alone: a `null` or `undefined`
   * admin makes every check throw, any other decides by the truthiness of its
   * `isAdmin` and the strict equality of its `sessionID`.
   */
  lemma NewLobbyAdmin(lobbyID: Value, admin: Value, settings: Value, x: Value)
    requires NewLobby(lobbyID, admin, settings).Ok?
    ensures IsAdmin(NewLobby(lobbyID, admin, settings).value, x).Err? <==> Nullish(admin)
    ensures !Nullish(admin) ==> IsAdmin(NewLobby(lobbyID, admin, settings).value, x) == Ok(AdminEntry(admin, x))
  {
    var l := NewLobby(lobbyID, admin, settings).value;
    assert l.users[0] == admin;
  }

  /** Truthiness, not `true`, makes the constructor's admin: a flag of `1` counts. */
  lemma NumericFlagIsAdmin(lobbyID: Value, settings: Value, id: string)
    requires IsValidLobbyId(lobbyID)
    ensures var admin := Obj(map["sessionID" := Str(id), "isAdmin" := Num(1)]);
      IsAdmin(NewLobby(lobbyID, admin, settings).value, Str(id)) == Ok(true)
  {
    var admin := Obj(map["sessionID" := Str(id), "isAdmin" := Num(1)]);
    NewLobbyAdmin(lobbyID, admin, settings, Str(id));
  }

  /** A generated ID is accepted by the constructor. */
  lemma GeneratedLobbyIdAccepted(draws: seq<SixBytes>, words: seq<string>, admin: Value, settings: Value)
    requires ValidFilter(words)
    requires GenerateLobbyId(draws, words).Some?
    ensures NewLobby(Str(GenerateLobbyId(draws, words).value), admin, settings).Ok?
  {
    var k :| 0 <= k < |draws| && CodeFromBytes(draws[k]) == GenerateLobbyId(draws, words).value;
    CodeIsValidLobbyId(draws[k]);
  }

  /**
   * Where the intended generator returns the first draw's code because the
   * filter passes it, the generator as written throws instead.
   */
  lemma AsWrittenGeneratorThrows(draws: seq<SixBytes>, words: seq<string>)
    requires ValidFilter(words)
    requires |draws| > 0 && !NeedsSanit(CodeFromBytes(draws[0]), words)
    ensures GenerateLobbyIdAsWritten(draws) == Err(NeedsSanitNotAFunction)
    ensures GenerateLobbyId(draws, words) == Some(CodeFromBytes(draws[0]))
  {
  }

  /** A valid session ID alone is not enough: two-character usernames are refused. */
  lemma ShortUsernameRefused(l: Lobby, isAdmin: Value)
    ensures AddUser(l, Str("ab"), Str(SessionIdLemmas.SampleId), isAdmin).Err?
    ensures AddUser(l, Str("abc"), Str(SessionIdLemmas.SampleId), isAdmin).Ok?
  {
    SessionIdLemmas.SampleIdIsUuid();
  }
}
