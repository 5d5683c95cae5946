# Pung session layer in Dafny

A model of the session layer of Pung, a two-player terminal game with a
client and a server that talk over a WebSocket. It covers five parts:

- **The connection handler** (`common/ActionHandler.ts`). One handler wraps
  one socket. It is a state record: the `open` flag, the three timestamps,
  and logs of the frames it sent, the events it emitted and the socket closes
  it asked for. Each socket callback and public method becomes a transition
  function. Clock readings and the result of `JSON.parse` are parameters.
- **The lobby records** (`server/Lobby.js`, and the earlier
  `common/Lobby.js` that the router actually loads). Settings are merged over
  the defaults, users form an ordered list, admins are found by scanning that
  list, and lobby codes have six letters.
- **Session identifiers** (`common/sessionID.ts`, `common/sessionID.js`). There
  are two different recognisers of the 8-4-4-4-12 hexadecimal UUID text of
  section 3 of RFC 4122. One is unanchored with word boundaries; the other is
  anchored. There is also a generator that re-rolls a supply of
  `crypto.randomUUID` results.
- **The content filter** (`common/sanitizeText.ts`, `common/sanitizeText.js`).
  It does global regular-expression replacement of filter words and has the
  `needsSanit` test. A regular expression built from a literal word is modelled
  as a literal matcher, and the `$` patterns of the replacement string are
  interpreted.
- **The server router** (`server/server.js`). It is a stateless function from
  one received action to the list of actions it dispatches back, plus the
  port check of `init`.

JavaScript values are a datatype `JsValue.Value`. The model follows these
JavaScript rules:

- `typeof null` is `"object"`.
- Reading a property of `null` or `undefined` throws. The model returns an
  `Err(TypeError(..))` instead.
- `Object.keys`, the spread `{...v}`, `String(v)` and `parseInt` are modelled
  as far as the core uses them.

Randomness is a supplied input: UUID strings, and six-byte draws. The error
table and the filter word list are parameters.

Behaviour of the code worth knowing:

- The lobby-code alphabet is A–Z, mapped through a floored linear scale
  (`server/Lobby.js:76-83`). The mapping is not uniform: 'Z' comes only from
  byte 255, 'A' from bytes 0 to 10.
- `respondError` asks for a socket close after every error it sends. The
  guard at `common/ActionHandler.ts:211` is always true.
- An error frame carries no `responseTo` (`common/ActionHandler.ts:200-206`).
- Handshakes are neither clock-checked nor username-validated
  (`server/server.js:93-105`).
- `createLobby` registers nothing (`server/server.js:106-124`), and
  `joinLobby` gets no reply (`server/server.js:125-138`).
- `changeLobbySettings` is not admin-checked. Its reply,
  `broadcastLobbySettings`, goes back to the sender only
  (`server/server.js:139-155`).
- Unknown action types get no reply, because the router's `respondError` is
  empty (`server/server.js:156-158`).
- `generateSessID` of `sessionID.js` does not filter (`common/sessionID.js:8-11`).
- No `winScore` range is enforced (`server/Lobby.js:30`).
- The lobby constructor stores its admin argument unchecked
  (`server/Lobby.js:35`), and `isAdmin` reads that user's `isAdmin` for
  truthiness (`server/Lobby.js:65`). A `null` admin makes every `isAdmin` call
  throw.

`server/Lobby.js` imports `../common/sessionID` and `../common/sanitizeText`.
Node resolves both to the `.js` files. The session check therefore uses the
anchored recogniser of `sessionID.js`. `sanitizeText.js` exports only the bare
`sanitizeText` function, so the destructured `needsSanit` is `undefined` and
`generateLobbyID` throws on every call. `ServerLobby.GenerateLobbyIdAsWritten`
models that; `ServerLobby.GenerateLobbyId` is the evidently intended generator
that re-rolls codes the `needsSanit` of `sanitizeText.ts` flags (see
"## Findings").

## Model

| member | source | states |
|---|---|---|
| ActionHandler.New | common/ActionHandler.ts:39-55 | construction succeeds exactly for the actors "server" and "client" over a WebSocket; the new handler is closed, its three timestamps are -1, and its logs are empty |
| ActionHandler.IsValidAction | common/ActionHandler.ts:219-232 | the shape gate is true exactly for an object with a string `type` that is "error" or has non-empty object data; it is false for non-objects; it throws exactly for `null` itself and for `null` data on a non-error action, because `typeof null` is "object" at lines 220 and 226 |
| ActionHandler.CloseAfterError | common/ActionHandler.ts:208-213 | the close condition in the send callback holds for every close code and send outcome |
| ActionHandler.ErrorName | common/ActionHandler.ts:203 | the error name is the table entry for the code, or "Unknown Error" when the code is absent |
| ActionHandler.MessageOrNull | common/ActionHandler.ts:197 | the message is kept exactly when it is a non-empty string, and becomes `null` otherwise |
| ActionHandler.RespondError | common/ActionHandler.ts:190-214 | nothing happens on a closed handler; an open one sends exactly one error frame with the looked-up name, `parseInt` of the code and the message or `null`, and asks for one socket close with the given code |
| ActionHandler.Dispatch | common/ActionHandler.ts:136-183 | nothing happens on a closed handler; on an open one a valid action adds exactly one transfer frame with the handler's actor, the type and the data, and stamps `lastDispatch`; any other action sends nothing and adds exactly one "error" event |
| ActionHandler.PongLatency | common/ActionHandler.ts:163-167 | a pong frame's data gains `internalLatency`, which equals the time since the last inbound message and is never below -1 |
| ActionHandler.OnMessage | common/ActionHandler.ts:91-117 | every inbound frame marks the handler open and stamps `lastMessageTimestamp`; actor and `lastDispatch` do not change |
| ActionHandler.OnOpen | common/ActionHandler.ts:119-121 | the socket's open event only sets `open` |
| ActionHandler.OnClose | common/ActionHandler.ts:123-126 | the socket's close event clears `open` and re-emits one close event with the code and reason |
| ActionHandler.OnSocketError | common/ActionHandler.ts:128-130 | a socket error is re-emitted as exactly one "error" event |
| ActionHandler.Close | common/ActionHandler.ts:69-85 | `close()` clears `open` at once and asks the socket to close without a code; nothing else changes |
| ActionHandlerLemmas.ErrorCodesParse | common/ActionHandler.ts:104-111 | the two error-table codes of the receive path read back as the numbers 101 and 102 |
| ActionHandlerLemmas.OnMessageMalformed | common/ActionHandler.ts:108-115 | an unparsable frame is answered with error 102 and a 1007 close request, and no action event |
| ActionHandlerLemmas.OnMessageBadShape | common/ActionHandler.ts:102-107 | a parsed frame that fails the shape gate is answered with error 101 and a 1007 close request |
| ActionHandlerLemmas.OnMessageShapeThrows | common/ActionHandler.ts:95-116 | when the shape gate throws on `null` data, the catch answers with error 102, as if the frame had not parsed |
| ActionHandlerLemmas.OnMessageValid | common/ActionHandler.ts:99-101 | a well-shaped frame yields exactly one action event carrying it and stamps `lastReceive`; nothing is sent |
| ActionHandlerLemmas.OnMessageOneOutcome | common/ActionHandler.ts:91-117 | every inbound frame has exactly one outcome: one action event and nothing sent, or one error frame and no event |
| ActionHandlerLemmas.DispatchOfErrorAction | common/ActionHandler.ts:145-151 | dispatching an action of type "error" sends nothing and reports it locally as one error event |
| ActionHandlerLemmas.DispatchAllAfterClose | common/ActionHandler.ts:69-71 | after `close()`, any run of `dispatch` calls leaves the handler exactly as it was |
| ActionHandlerLemmas.DispatchAllWhileClosed | common/ActionHandler.ts:138 | while the handler is not open, any run of `dispatch` calls leaves it exactly as it was |
| ActionHandlerLemmas.DispatchAllAfterSocketClose | common/ActionHandler.ts:123-126 | after the socket's close event, any run of `dispatch` calls and any `respondError` call (gated at line 195) leave the handler exactly as it was, until a frame arrives |
| ActionHandlerLemmas.OpenAfterCloseDispatches | common/ActionHandler.ts:119-121 | the socket's open event undoes `close()`: a well-formed action is sent again |
| ActionHandlerLemmas.SocketErrorKeepsOpen | common/ActionHandler.ts:128-130 | a socket error leaves an open handler open, and `dispatch` still sends |
| ActionHandlerLemmas.DispatchAllOnlyAppends | common/ActionHandler.ts:136-183 | a run of `dispatch` calls only appends to the outbox and never changes `open` or the actor |
| ActionHandlerLemmas.MessageAfterCloseReopens | common/ActionHandler.ts:91-92 | an inbound frame after `close()` sets `open` again, so a later `dispatch` appends a frame to the outbox again |
| ActionHandlerLemmas.PeerAcceptsFrame | common/ActionHandler.ts:169-175 | every error frame, and every transfer frame with non-empty object or array data, passes the peer's shape gate |
| ActionHandlerLemmas.PeerRejectsEmptyData | common/ActionHandler.ts:224-229 | a transfer frame with empty data is sent but fails the peer's shape gate |
| ActionHandlerLemmas.DispatchThenReceive | common/ActionHandler.ts:99-101 | a dispatched action with non-empty data arrives at an open peer as exactly one action event carrying the frame |
| Actions.ActorOf | types/actions.d.ts:26 | an actor name is read back only from the strings "client" and "server", and names that actor |
| Actions.ActionTypeRoundTrip | types/actions.d.ts:15-23 | every action type's wire name reads back as that type |
| Actions.SettingsRoundTrip | types/lobby.d.ts:5-10 | a typed settings record survives conversion to its object form and back |
| JsNumber.ParseIntRoundTrip | server/server.js:34 | `parseInt` of an integer's decimal text gives back that integer |
| JsNumber.ParseIntSkipsWhitespace | server/server.js:34 | leading JavaScript white space does not change what `parseInt` returns |
| JsNumber.ParseIntWithoutDigits | server/server.js:36 | a string without decimal digits parses to `NaN` |
| Sanitize.SanitizeText | common/sanitizeText.ts:10-27 | the filter throws exactly for non-string text |
| SanitizeLemmas.SanitizeTextIsReplaceEach | common/sanitizeText.ts:19-26 | for string text, the result is sequential case-insensitive replace-all of each word in list order, with the replacement or "***" when it is not a string |
| Sanitize.NeedsSanit | common/sanitizeText.ts:42-50 | the test holds exactly when some filter word occurs in the text, ignoring case |
| Sanitize.OccursLowered | common/sanitizeText.ts:22 | lower-casing a word does not change whether it occurs case-insensitively |
| Sanitize.LegacySanitizeText | common/sanitizeText.js:10-20 | the earlier filter throws exactly for non-string text with a non-empty word list, and returns a string for string text |
| SanitizeLemmas.SubstituteLiteral | common/sanitizeText.ts:23 | a replacement without `$` is inserted as written |
| SanitizeLemmas.ReplaceAllNoMatch | common/sanitizeText.ts:23 | a global replace whose pattern never matches returns the text unchanged |
| SanitizeLemmas.IndexOf | common/sanitizeText.ts:23 | the leftmost match position at or after a start, or none when there is no match |
| SanitizeLemmas.ReplaceAllIsReference | common/sanitizeText.ts:23 | the scanning global replace equals the reference definition: text up to the leftmost match, its substitution, then the rest replaced likewise |
| SanitizeLemmas.SanitizeWordsIsReplaceEach | common/sanitizeText.ts:21-26 | the filter loop is a sequential case-insensitive replace-all of each word in list order; the `match` guard and the lower-casing change nothing |
| SanitizeLemmas.SanitizeWordsNoMatch | common/sanitizeText.ts:21-26 | when no filter word occurs, the text comes out unchanged |
| SanitizeLemmas.SanitizeTextUnflagged | common/sanitizeText.ts:21-26 | text that `needsSanit` passes comes out of `sanitizeText` unchanged, whatever the replacement |
| SanitizeLemmas.ReplaceAllEmpty | common/sanitizeText.ts:23 | an empty filter word matches at every position, so the global replace puts the replacement before every character and once more at the end |
| SanitizeLemmas.NeedsSanitPadded | common/sanitizeText.ts:42-50 | text that needs sanitising still needs it with anything added before and after |
| SanitizeLemmas.LegacyNoSlash | common/sanitizeText.js:15-19 | text without '/' passes the earlier filter unchanged |
| SanitizeLemmas.LegacyWordsIsReference | common/sanitizeText.js:15-17 | the earlier filter's loop equals an independent leftmost-match reference that replaces each case-exact `/word/` globally, in list order |
| SanitizeLemmas.LegacySanitizeTextIsReference | common/sanitizeText.js:10-20 | for string text, the earlier filter's result is that reference, with the replacement or "-" when it is not a string |
| SanitizeLemmas.LegacyUnmatched | common/sanitizeText.js:15-19 | when no `/word/` occurs with exactly its case, the earlier filter returns the text unchanged |
| SanitizeLemmas.LegacyBareWord | common/sanitizeText.js:16 | a filter word without slashes around it passes the earlier filter unchanged |
| SanitizeLemmas.LegacyExamples | common/sanitizeText.js:12-17 | "/bad/" becomes the default "-", while "/BAD/" is untouched because the match is case-sensitive |
| SanitizeLemmas.SanitizeExample | common/sanitizeText.ts:19-23 | "/BAD/" becomes "/***/": the match ignores case and the default replacement is "***" |
| SessionId.MatchSessIdAnchored | common/sessionID.js:18-21 | the anchored check gives a match exactly for a string of 36 characters with '-' at 8, 13, 18 and 23 and hexadecimal digits elsewhere; the match is the whole string |
| SessionId.MatchGroupsIsLayout | common/sessionID.js:20 | the anchored pattern of hexadecimal groups of 8, 4, 4, 4 and 12 joined by '-' describes exactly that positional layout |
| SessionId.FirstUuidMatch | common/sessionID.ts:22-24 | the scan finds the leftmost bounded match, or reports that there is none |
| SessionId.IsValidSessId | common/sessionID.ts:19-26 | the unanchored check holds exactly for a string containing the layout with no word character just before or after it |
| SessionId.GenerateSessId | common/sessionID.ts:8-14 | the generated ID passes the filter and is the first supplied UUID that does; nothing is returned exactly when every supplied UUID is filtered |
| SessionIdLemmas.CanonicalIsValid | common/sessionID.ts:22-24 | every string in the layout passes both recognisers, whatever its version or variant nibble |
| SessionIdLemmas.ShortIsInvalid | common/sessionID.ts:22-24 | no string shorter than 36 characters passes either recogniser |
| SessionIdLemmas.AnchoredImpliesUnanchored | common/sessionID.js:20 | whatever the anchored check accepts, the unanchored check accepts |
| SessionIdLemmas.PaddedIdSplitsRecognisers | common/sessionID.ts:23 | an ID between two blanks passes the unanchored check and fails the anchored one |
| SessionIdLemmas.PaddedStaysValid | common/sessionID.ts:22-24 | adding text separated by non-word characters keeps a string valid for the unanchored check |
| SessionIdLemmas.WordPrefixRejected | common/sessionID.ts:23 | a word character glued to the front of an ID defeats the leading `\b` |
| SessionIdLemmas.GeneratedIsValid | common/sessionID.ts:8-14 | from a supply of canonical UUIDs, a generated ID passes both recognisers and the filter |
| LobbyCode.CharIndex | server/Lobby.js:83 | the letter index is the floor of the byte scaled from [0, 255] onto [0, 25] |
| LobbyCode.CodeFromBytes | server/Lobby.js:74-88 | the code has one upper-case letter per byte, in order, each the letter at that byte's index |
| LobbyCode.IsValidLobbyId | server/Lobby.js:114-117 | a lobby ID is valid exactly when it is a string of six word characters |
| LobbyCode.CodeIsValidLobbyId | server/Lobby.js:72-88 | every code made from six bytes is a valid lobby ID |
| LobbyCode.ZOnlyFromTopByte | server/Lobby.js:83 | the letter 'Z' comes from byte 255 and from no other byte, and 'A' from exactly the bytes 0 to 10 |
| LobbyCode.EveryLetterReachable | server/Lobby.js:76-85 | every letter A–Z is produced by some byte |
| LobbyDefaults.DefaultSettings | server/Lobby.js:101-107 | the defaults have exactly the keys `winScore` and `difficulty`, and read as the typed settings (8, medium) |
| LobbyDefaults.MergeSettings | server/Lobby.js:21-30 | the merged keys are the default keys plus the argument's own keys; the argument's values win and the defaults fill the rest |
| LobbyDefaults.NonObjectGivesDefaults | server/Lobby.js:21-22 | an argument that is not an object or array, or is `null`, leaves exactly the defaults |
| LobbyDefaults.FullSettingsOverride | server/Lobby.js:30 | a complete typed settings object replaces both defaults |
| LobbyDefaults.WinScoreOverride | server/Lobby.js:30 | overriding `winScore` alone keeps the default difficulty |
| ServerLobby.NewLobby | server/Lobby.js:19-36 | the constructor succeeds exactly for a valid lobby ID; the lobby keeps that ID and the merged settings, and its users are exactly the admin argument, whatever value it is |
| ServerLobby.AddUser | server/Lobby.js:44-56 | adding succeeds exactly for a string username of at least 3 characters and an anchored-valid session ID, and the username is checked first; success appends exactly one `{ username, sessionID, isAdmin }` object at the end, with `isAdmin` true only for `true`, and keeps the ID, the settings and the earlier users |
| ServerLobby.FindAdmin | server/Lobby.js:65 | the `find` scan returns the first user whose `isAdmin` is truthy and whose `sessionID` is strictly equal, after only non-null users that do not match; it throws only at a `null` or `undefined` user reached before any match |
| ServerLobby.IsAdmin | server/Lobby.js:63-66 | the check throws exactly when a `null` or `undefined` user comes before every matching user; otherwise it is true exactly when some user has a truthy `isAdmin` and a strictly equal `sessionID` |
| ServerLobby.GenerateLobbyId | server/Lobby.js:72-95 | the intended generator: the code passes the filter and is the first drawn code that does; nothing is returned exactly when every draw is filtered |
| ServerLobby.GenerateLobbyIdAsWritten | server/Lobby.js:88-92 | as written, with `needsSanit` bound to `undefined` by the import at line 4, every call that draws a code throws `needsSanit is not a function` and never returns a code |
| ServerLobbyLemmas.AddNonAdminKeepsAdmins | server/Lobby.js:52-66 | adding a non-admin user changes neither any session ID's admin status nor whether the check throws |
| ServerLobbyLemmas.AddUserKeepsAdmins | server/Lobby.js:55-65 | adding a user never takes admin status away |
| ServerLobbyLemmas.FindAdminAppend | server/Lobby.js:55-65 | users pushed at the end only change the `find` scan when it ran past every earlier user |
| ServerLobbyLemmas.AddAdminGrants | server/Lobby.js:52-65 | a user added with `isAdmin` true is an admin, unless an earlier `null` or `undefined` user already makes the check throw |
| ServerLobbyLemmas.NewLobbyAdmin | server/Lobby.js:63-66 | in a lobby just built by the constructor (line 35) the check throws exactly for a `null` or `undefined` admin; otherwise a session ID is an admin exactly when the admin's `isAdmin` is truthy and its `sessionID` strictly equals it |
| ServerLobbyLemmas.NumericFlagIsAdmin | server/Lobby.js:65 | an admin record whose `isAdmin` is `1` counts as admin, because the flag is read for truthiness |
| ServerLobbyLemmas.GeneratedLobbyIdAccepted | server/Lobby.js:24-25 | every code the intended generator returns is accepted by the constructor |
| ServerLobbyLemmas.AsWrittenGeneratorThrows | server/Lobby.js:88-94 | when the first drawn code passes the filter, the intended generator returns it and the generator as written throws |
| ServerLobbyLemmas.ShortUsernameRefused | server/Lobby.js:46-47 | with a valid session ID, a two-character username is refused and a three-character one is accepted |
| CommonLobby.NewLobby | common/Lobby.js:14-26 | the earlier lobby starts with no users and the merged settings |
| CommonLobby.AddUser | common/Lobby.js:33-42 | adding succeeds exactly for a non-empty string session ID; it appends exactly one user at the end, admin only for `true`, and keeps the settings and the earlier users |
| CommonLobby.GenerateLobbyId | common/Lobby.js:48-65 | the code is six upper-case letters and a valid lobby ID, and each letter is its own byte's letter, so no code is filtered or re-rolled |
| CommonLobbyLemmas.AddUsersInOrder | common/Lobby.js:41 | users added one after another appear in that order after the existing ones |
| CommonLobbyLemmas.UnfilteredCodeContrast | common/Lobby.js:64 | six zero bytes give "AAAAAA", which contains a filter word "aaa": the earlier generator returns it, while the server's re-rolls |
| CommonLobbyLemmas.LooseSessionId | common/Lobby.js:35-36 | the earlier lobby accepts the session ID "x", which the server's lobby refuses |
| ServerRouter.InitPort | server/server.js:29-37 | a port that passes the check at lines 36-37 is at least 1; an omitted port is 6941; a number port is accepted exactly when it is at least 1, and is kept; a string port is accepted exactly when `parseInt` gives at least 1 |
| ServerRouter.CheckPort | server/server.js:36-37 | a parsed port is accepted exactly when it is a number of at least 1 |
| ServerRouter.OnClientAction | server/server.js:85-160 | the router throws exactly for a `null` or missing action, and for missing data on a handshake or settings change; otherwise it replies with at most one `{type, data}` action |
| ServerRouter.SanitizeUsername | server/server.js:78 | the placeholder passes every username through unchanged, so the handshake never alters the name it was given |
| ServerRouterLemmas.RepliesFollowDeclaredTypes | server/server.js:91-158 | only `handshake`, `createLobby` and `changeLobbySettings`, read as declared action types, get a reply, and each reply's type is the declared type that answers it (`ackHandshake`, `ackJoinLobby`, `broadcastLobbySettings`) |
| ServerRouterLemmas.HandshakeReply | server/server.js:93-105 | a handshake gets one `ackHandshake` whose `finalUsername` is `data.username` unchanged and whose `sessionID` is the drawn UUID |
| ServerRouterLemmas.CreateLobbyReply | server/server.js:106-124 | creating a lobby gets one `ackJoinLobby` with a valid six-letter ID and the default settings (8, medium) |
| ServerRouterLemmas.ChangeSettingsReply | server/server.js:139-155 | a settings change gets one `broadcastLobbySettings` whose data is exactly `data.settings` |
| ServerRouterLemmas.UnansweredTypes | server/server.js:125-158 | joining a lobby and every unnamed type get no reply |
| ServerRouterLemmas.OnlyIdsDependOnDraws | server/server.js:85-160 | the drawn UUID and bytes change neither whether the router throws nor the number and types of replies, and change nothing for other action types |
| ServerRouterLemmas.RepliesDispatchable | server/server.js:100-152 | handshake and lobby replies are always sendable by `dispatch`; a settings echo is sendable exactly when the client's settings are an object |
| ServerRouterLemmas.NonObjectSettingsRaiseError | server/server.js:147-152 | echoing non-object settings through an open handler sends nothing and raises one error event |
| ServerRouterLemmas.InitPortDecimalPrefix | server/server.js:34-37 | a port string that starts with a decimal number is accepted exactly when that number is at least 1, and gives that number |
| ServerRouterLemmas.InitPortWithoutDigits | server/server.js:34-37 | a port string without digits is rejected |

## Left out

- Socket plumbing, timers and the event emitter are not modelled. This
  includes the `terminate` timeout race in `close()`, which is concurrency and
  timers. `close()` is modelled only by its `open = false` effect and a close
  request.
- ActionHandler.RespondError: the close request is recorded when the frame is
  sent. The source makes it from the send callback, once the send has
  completed.
- `JSON.parse` and `JSON.stringify` are not modelled. Parsing is a supplied
  outcome, and frames are structured values rather than bytes. So
  `JSON.stringify` dropping properties whose value is `undefined` is not
  modelled.
- `Date.now()`, `crypto.randomUUID` and `randomBytes` are supplied inputs.
  The source's re-roll recursion has no bound. Here it is bounded by the
  supply, and running out yields no result.
- `svcorelib.mapRange` is not part of this model. It is taken to be the linear
  map of [0, 255] onto [0, 25].
- The error table (`errors.json`) and the word list (`filter.json`) are not
  part of this model. They are parameters.
- Sanitize.SanitizeText: filter words must be free of regular-expression
  syntax characters (`ValidFilter`), so that each word matches literally. The
  `i` flag folds only ASCII letters, not the rest of Unicode.
- Sanitize.NeedsSanit: requires the same literal filter words (`ValidFilter`), and
  its `i` flag folds only the ASCII letters A-Z, not the full Unicode case mapping.
- Sanitize.LegacySanitizeText: requires the same literal filter words.
- ServerLobby.IsAdmin: values carry no object identity, so `===` between two
  objects or arrays counts as false. An admin whose `sessionID` is the very
  object passed to `isAdmin` is therefore not recognised.
- Numbers are integers only. Fractions, `NaN` and `Infinity` as values, and the
  exponent form `String` gives at 1e21 and beyond, are not modelled.
- ServerRouter.InitPort: says nothing about fractional number ports, which
  `parseInt` truncates, because numbers are integers; nor about ports above
  65535, which pass the check but make `new WebSocketServer` at
  server/server.js:39 throw a `RangeError` (the `ws` library is not part of this model).
- String length counts code points rather than UTF-16 code units. The
  3-character username minimum can differ for characters outside the Basic
  Multilingual Plane.
- `dispatch` writes `internalLatency` into the caller's own data object. Only
  the sent frame is modelled, not the mutation visible to the caller.
- Exceptions thrown by event listeners are not modelled. Neither is Node
  throwing on an "error" event that has no listener.
- `usernameValid` is not modelled. It depends on `cfg.usernameRegex`, which
  the configuration does not define.
- `common/lobby.js` is not modelled. It indexes an array with an unfloored
  float from `mapRange`.
- End-to-end server wiring is not modelled. `clientConnect` subscribes to a
  "response" event, which the handler never emits, and `server/server.js`
  loads an empty `ActionHandler` stub. The router is modelled on its own.
- Logging (`dbg`, `console.log`), `stop`, `connectionClose`,
  `connectionError` and the router's empty `respondError` are left out. They
  are I/O, or do nothing.
- `generateSessID` of `sessionID.js` is left out. It returns the supplied UUID
  unchanged, so there is nothing to model.

## Findings

| source | as written | input that shows it | evidently intended | confidence | as-written member | corrected member |
|---|---|---|---|---|---|---|
| server/Lobby.js:4 | `needsSanit` is destructured from `require("../common/sanitizeText")`; Node loads `sanitizeText.js`, which exports only the `sanitizeText` function, so the binding is `undefined` | any call of `generateLobbyID()`, for instance with six zero bytes drawn and an empty word list: the call `needsSanit(finalCode)` at line 91 throws `TypeError: needsSanit is not a function` | import the `needsSanit` of `sanitizeText.ts` and re-roll every code it flags | high; not executed | ServerLobby.GenerateLobbyIdAsWritten | ServerLobby.GenerateLobbyId |
