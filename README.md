# Idobata for VS Code: the room directory and message sender

This project models the `Idobata` class of the vscode-idobata editor
extension, the part that does the actual work. The extension posts editor
text or a typed message to a room of the Idobata chat service. An instance
is created from the settings with an access token, a default room name and a
"remember room" flag. Its job is to:

- fill a room dictionary (name to id) from the service's room list, but only
  while the dictionary is empty;
- offer the room names with the default room first;
- turn the name the user picked into a room id, and remember that room as the
  new default when the flag is set;
- wrap editor text in a `~~~` code block;
- build the `createMessage` GraphQL request, and only when a room is selected.

Files:

- `wrappers.dfy`: `Option`.
- `room_cache.dfy` (module `RoomCache`): pure definitions of the dictionary
  filled from a sequence of edges (`MapOf`), of its key order (`NamesOf`) and
  of the order the names are offered in (`DisplayOrder`), with lemmas that
  characterise them.
- `messages.dfy` (module `Messages`): `Pre` and the request values. This
  includes the envelope that `sendQuery` posts: method, URL, content type,
  `Bearer` authorization, query text and mutation input.
- `extension.dfy` (module `Extension`): the class `Idobata` with the fields
  `rooms`, `keys`, `roomId`, `defaultRoom` and `rememberRoom`, and its methods
  with loops. It also holds `LoadConfiguration` and `SessionExample`, a
  session that goes from listing the rooms to sending a message.

The JavaScript object `rooms` is modelled as a `map` plus the sequence
`keys` of its keys in enumeration order. `Valid()` says the two agree and
that no key repeats. An edge named `__proto__` is never stored. Assigning
that key on a plain object calls the inherited `__proto__` setter, which
ignores a string value. So that room is never listed and never resolves.

The network is replaced by inputs and outputs. The fetched room list is an
input, `Some(edges)`, or `None` when the request or the reading of its
answer fails. The requests the extension would post are
returned as values. The user's quick-pick answer is an input `Option<string>`.

The source declares `roomId` without a value (`undefined`). The model starts
it as `""`. The only test on it is `!this.roomId`, which treats both the same.
The constructor also calls `getRoomNames()`. That call only reads state and
its result is dropped, so the model's constructor leaves it out. The class
field `rememberRoom` starts as `true`, but the configuration loader always
passes a value and defaults it to `false`. The model follows the loader.

## Model

| member | source | states |
|---|---|---|
| `Extension.Idobata.GetRoomNames` | src/extension.ts:180-191 | The names are the cache keys rearranged: the same multiset, the same length, no repeats. If the default room is a key, it comes first and the other keys follow in cache order. Otherwise the names are exactly the keys in cache order. |
| `Extension.Idobata.GetRoomNamesAsync` | src/extension.ts:158-171 | A non-empty cache is listed as it is, with no room-list request. An empty cache issues exactly one room-list request. The dictionary and key order then become `MapOf` and `NamesOf` of the fetched edges. A failed fetch leaves the cache empty and gives no names. Any names returned are `DisplayOrder` of the new keys. |
| `Extension.Idobata.GetRoomId` | src/extension.ts:193-205 | The result is `rooms[n]` when `n` is a key and `""` otherwise. `defaultRoom` becomes `n` exactly when `n` is a key and remembering is on; otherwise it is unchanged. The dictionary and its key order are never modified. |
| `Extension.Idobata.SelectRoom` | src/extension.ts:119-127 | A dismissed or empty pick clears `roomId` and leaves the default room alone. Any other pick sets `roomId` to what `GetRoomId` gives for that name, so an unknown name leaves it empty. The picked name is returned. |
| `Extension.Idobata.SendText` | src/extension.ts:138-156 | With no room selected, no request is issued. Otherwise exactly one request is issued: the `createMessage` mutation to the API URL with the session's bearer token, and input `{roomId, source: text, format: MARKDOWN}`. |
| `Extension.Idobata.constructor` | src/extension.ts:19-24 | A new session keeps the token, default room and remember flag. It has an empty cache and no room selected. |
| `Extension.LoadConfiguration` | src/extension.ts:244-261 | There is no session without a non-empty access token. A missing default room is the empty name. The remember flag is true only when it is set to true. |
| `Extension.SessionExample` | src/extension.ts:119-171 | Rooms `dev`=1 and `ops`=2 with default `ops` are offered as `["ops", "dev"]`. A second listing issues no request. Picking `dev` sends `hello` to room `1`. After a dismissed pick nothing is sent. |
| `Messages.Pre` | src/extension.ts:130-136 | The block opens with `~~~` and a newline and closes with `~~~`. The text between the fences ends in a newline. It equals the input exactly when the input already ends in one, and otherwise it is the input plus one newline. |
| `Messages.PreSameBlock` | src/extension.ts:130-136 | Two texts give the same block exactly when they are equal, or one is the other plus the newline it lacked. So a trailing newline is never doubled. |
| `Messages.PreExamples` | src/extension.ts:130-136 | `Pre("line1")` and `Pre("line1\n")` are both `"~~~\nline1\n~~~"`. |
| `RoomCache.NamesOfMembers` | src/extension.ts:165-167 | A name is a key after filling exactly when some edge carries it and it is not `__proto__`. The key sequence and the dictionary agree on this. |
| `RoomCache.NamesOfDistinct` | src/extension.ts:165-167 | The filled key order lists no name twice. |
| `RoomCache.MapOfLastWins` | src/extension.ts:165-167 | A stored name (anything but `__proto__`) keeps the id of its last edge, so a repeated name overwrites. |
| `RoomCache.NamesOfFirstOrder` | src/extension.ts:165-167 | Keys are ordered by the first edge that carries each name. A repeated name keeps the position of its first edge. |
| `RoomCache.WithoutMembers` | src/extension.ts:183-189 | Removing the default room from distinct keys keeps exactly the other keys, still without repeats. |
| `RoomCache.DisplayOrderPermutation` | src/extension.ts:182-189 | The offered names are a permutation of the keys and have the same length. |
| `RoomCache.DisplayOrderAbsent` | src/extension.ts:183-189 | If the default room is not a key, the names are offered in key order unchanged. |
| `RoomCache.DisplayOrderFront` | src/extension.ts:183-189 | If the default room is one of distinct keys, it is offered first and the remaining keys keep their order. |
| `RoomCache.DisplayOrderDistinct` | src/extension.ts:182-189 | Distinct keys give distinct offered names. |

## Left out

- User interface and editor host: the quick pick, the input box, the
  notifications, the active editor, command registration, `activate`,
  `deactivate`, `dispose` and the configuration-change listener. These are
  calls into the editor's API. The pick and the text are method inputs
  instead.
- HTTP: `sendQuery` posting with `request-promise`, and the room-list call in
  `getRoomList`. These are network I/O. The model builds the request values
  and takes the fetched edges as an input.
- JSON parsing of `body.data.viewer.rooms.edges`. The edges arrive already
  parsed. A response that cannot be read is the `None` input, and then
  nothing changes. A failure partway through the `forEach` is not modelled.
- Promise chaining and the success and error messages in `sendMessage`,
  `sendEditorText` and `sendEditorTextSelection`. These are control-flow
  plumbing around `SelectRoom`, `Pre` and `SendText`.
- Extension.Idobata.GetRoomNamesAsync: the emptiness test, the fetch and the
  fill are modelled as one atomic step. Calls are assumed not to overlap. In
  the source two listings can overlap across the awaited fetch. Then both see
  an empty cache and both fetch, and the second fill writes into a dictionary
  that is already filled. The contract does not describe that second fill.
- Key enumeration order of JavaScript objects. Keys that look like integers
  are enumerated first, in numeric order. The model assumes plain insertion
  order for every key.
- `AUTH_URL` is never used by the class.
- Organization-qualified room names do not exist in this version of the
  extension. Only plain room names are modelled.
