/**
 * The earlier lobby record (`common/Lobby.js`), the one the server router loads:
 * no ID, an initially empty user list, any non-empty session ID string, and a
 * code generator without the content filter.
 */
module CommonLobby {
  import opened Wrappers
  import opened JsValue
  import opened LobbyCode
  import opened LobbyDefaults

  datatype LobbyUser = LobbyUser(sessionID: string, isAdmin: bool)

  datatype Lobby = Lobby(settings: map<string, Value>, users: seq<LobbyUser>)

  /** The constructor: it cannot throw, and the lobby starts empty. */
  function NewLobby(settings: Value): (l: Lobby)
    ensures l.users == []
    ensures l.settings == MergeSettings(settings)
  {
    Lobby(DefaultSettings() + OwnSettings(settings), [])
  }

  /** `addUser(sessionID, isAdmin)`: any non-empty string is accepted as a session ID. */
  function AddUser(l: Lobby, sessionID: Value, isAdmin: Value): (r: Result<Lobby, JsError>)
    ensures r.Ok? <==> sessionID.Str? && |sessionID.s| >= 1
    ensures r.Ok? ==>
      && r.value.settings == l.settings
      && |r.value.users| == |l.users| + 1
      && r.value.users[..|l.users|] == l.users
      && Str(r.value.users[|l.users|].sessionID) == sessionID
      && (r.value.users[|l.users|].isAdmin <==> isAdmin == Bool(true))
  {
    if !sessionID.Str? || |sessionID.s| < 1 then
      Err(TypeError("Can't add user with sessionID '" + ToJsString(sessionID) + "'"))
    else
      var admin := if isAdmin.Bool? then isAdmin.b else false;
      Ok(l.(users := l.users + [LobbyUser(sessionID.s, admin)]))
  }

  /** `generateLobbyID`: the letters of one draw, with no filtering. */
  function GenerateLobbyId(rb: SixBytes): (code: string)
    ensures |code| == LobbyIdLength
    ensures IsValidLobbyId(Str(code))
    ensures forall i :: 0 <= i < |code| ==> 'A' <= code[i] <= 'Z'
    ensures forall i :: 0 <= i < LobbyIdLength ==> code[i] == Letter(rb[i])
  {
    CodeIsValidLobbyId(rb);
    CodeFromBytes(rb)
  }
}

/** How the earlier lobby record differs from the server's. */
module CommonLobbyLemmas {
  import opened Wrappers
  import opened JsValue
  import opened Chars
  import opened Sanitize
  import opened LobbyCode
  import opened CommonLobby
  import ServerLobby

  /** Users added in sequence appear in the same order after the existing ones. */
  lemma AddUsersInOrder(l: Lobby, a: Value, b: Value)
    requires AddUser(l, a, Bool(false)).Ok?
    requires AddUser(AddUser(l, a, Bool(false)).value, b, Bool(false)).Ok?
    ensures var users := AddUser(AddUser(l, a, Bool(false)).value, b, Bool(false)).value.users;
      && |users| == |l.users| + 2 && users[..|l.users|] == l.users
      && Str(users[|l.users|].sessionID) == a && Str(users[|l.users| + 1].sessionID) == b
  {
    var l1 := AddUser(l, a, Bool(false)).value;
    var l2 := AddUser(l1, b, Bool(false)).value;
    assert l2.users[..|l.users|] == l1.users[..|l1.users|][..|l.users|];
    assert l2.users[|l.users|] == l1.users[|l.users|];
  }

  lemma ZeroDrawCode(z: SixBytes)
    requires forall i :: 0 <= i < |z| ==> z[i] == 0
    ensures CodeFromBytes(z) == "AAAAAA"
  {
    var code := CodeFromBytes(z);
    assert Letter(0) == 'A';
    assert forall i :: 0 <= i < 6 ==> code[i] == "AAAAAA"[i];
  }

  lemma TripleANeedsSanit(words: seq<string>)
    requires words == ["aaa"]
    ensures NeedsSanit("AAAAAA", words)
  {
    assert MatchesAt("AAAAAA", "aaa", 0, true);
    assert Occurs("AAAAAA", words[0], true);
  }

  /**
   * Without the filter, the earlier generator returns a code the server's
   * generator would re-roll: six zero bytes give "AAAAAA", which contains "aaa".
   */
  lemma UnfilteredCodeContrast(z: SixBytes, words: seq<string>)
    requires forall i :: 0 <= i < |z| ==> z[i] == 0
    requires words == ["aaa"]
    ensures GenerateLobbyId(z) == "AAAAAA"
    ensures NeedsSanit(GenerateLobbyId(z), words)
    ensures ValidFilter(words) && ServerLobby.GenerateLobbyId([z], words) == None
  {
    ZeroDrawCode(z);
    TripleANeedsSanit(words);
    assert ValidFilter(words) by {
      assert forall c :: c in "aaa" ==> !IsRegexSyntaxChar(c);
    }
    ServerRerollsAll([z], words);
  }

  lemma ServerRerollsAll(draws: seq<SixBytes>, words: seq<string>)
    requires ValidFilter(words)
    requires forall k :: 0 <= k < |draws| ==> NeedsSanit(CodeFromBytes(draws[k]), words)
    ensures ServerLobby.GenerateLobbyId(draws, words) == None
  {
  }

  /** Any non-empty session ID string is accepted here, where the server demands a UUID. */
  lemma LooseSessionId(l: Lobby, sl: ServerLobby.Lobby)
    ensures AddUser(l, Str("x"), Bool(true)).Ok?
    ensures ServerLobby.AddUser(sl, Str("alice"), Str("x"), Bool(true)).Err?
  {
  }
}
