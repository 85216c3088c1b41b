# StudySync chat, modelled in Dafny

StudySync is a study-room chat with two halves. The FastAPI server
(`app/chat.py`) keeps a registry of websocket connections per room, and it
broadcasts JSON records to every connection in a room:

- a system notice when someone joins;
- a chat record for every frame a connection sends;
- a system notice when someone leaves.

The React client (`studyroom-frontend`) has several parts:

- a join form that validates the user name and room;
- a chat room that opens a socket per room and appends each broadcast to a
  message log;
- the chat room's rendering of each message: own or other, the author label,
  and a link or image for files shared through the server;
- a socket provider with an `isConnected` flag and a guarded `sendMessage`;
- a typing indicator.

The model has one module per core source file, one module (`EndToEnd`) that joins the server and the client, and four support modules:

| module | models |
|---|---|
| `ChatServer` (chat_server.dfy) | `ConnectionManager`: a class over `map<string, seq<Connection>>`, specified by the pure functions `Add`, `Remove` and `Fanout`. Also the endpoint's join, receive-loop and leave steps as methods, and frame normalisation. |
| `ChatRoom` (chat_room.dfy) | The chat room component as a class: socket effect, `onmessage`, `sendMessage`, `sendFile` and the send button. Also the render predicates and an exact model of the two regular expressions and the `includes` guard. |
| `App` (app.dfy) | `joinRoom` validation, the one-way `joined` gate and the rendered screen. |
| `SocketContext` (socket_context.dfy) | The provider as a class: its room effect and cleanup, the socket event handlers, `isConnected` and the OPEN-guarded `sendMessage`. |
| `TypingIndicator` (typing_indicator.dfy) | The indicator text. |
| `EndToEnd` (end_to_end.dfy) | What a client frame becomes once the server has broadcast it and a client draws it. |
| `JsString`, `JsonValue`, `WebSocketApi`, `Wrappers` | The parts of JavaScript and the browser WebSocket API that the code relies on: `trim`, `.length` in UTF-16 code units, `includes`, `join`, property access and truthiness, and `readyState`. Also an `Option` type. |

The model makes the following choices:

- A websocket is an identity (`Connection`).
- A frame comes with its parse result: `json.loads` and `JSON.parse` themselves are not modelled.
- Timestamps are parameters.
- A broadcast returns the list of deliveries it makes, one per registered entry, in list order.
- `ConnectionManager`'s methods are proved against pure functions of the old state (`Add`, `Remove`, `Fanout`), and the properties are lemmas about those functions.
- The methods of `ChatRoomView`, `AppState` and `SocketProvider` state their new state field by field in their own `ensures`, next to the class invariant they keep.

## Model

| member | source | states |
|---|---|---|
| ChatServer.Add | app/chat.py:13-17 | `connect` appends the connection to the room's list, creating the room when absent. Other rooms are untouched, and no room is ever left empty. |
| ChatServer.ConnectionManager.constructor | app/chat.py:10-11 | The registry starts empty. |
| ChatServer.ConnectionManager.Connect | app/chat.py:13-17 | The new registry is `Add` of the old one, and the no-empty-room invariant is kept. |
| ChatServer.RemoveFirst | app/chat.py:21 | `list.remove` takes out exactly the first occurrence and keeps the order of the rest. The list shrinks by one. |
| ChatServer.Remove | app/chat.py:19-23 | `disconnect` leaves an absent room alone. Otherwise it removes the first occurrence and deletes the room exactly when its list empties. Other rooms are untouched. |
| ChatServer.ConnectionManager.Disconnect | app/chat.py:19-23 | The new registry is `Remove` of the old one, and the invariant is kept. |
| ChatServer.RemoveFirstAppended | app/chat.py:17-21 | Removing an element just appended, and found nowhere else, gives back the original list. |
| ChatServer.ConnectDisconnectRoundTrip | app/chat.py:13-23 | `connect` then `disconnect` of a connection not yet in the room restores the registry exactly, including deleting a room the connect created. |
| ChatServer.RemoveFirstCount | app/chat.py:21 | `remove` lowers the element's multiplicity by exactly one. |
| ChatServer.LeaverStaysIff | app/chat.py:19-23 | After `disconnect`, the connection is still in the room exactly when it had been registered there more than once. |
| ChatServer.Fanout | app/chat.py:25-28 | A broadcast makes one delivery per list entry, in list order. |
| ChatServer.FanoutReaches | app/chat.py:25-28 | A connection receives the broadcast exactly when it is registered in the room. |
| ChatServer.ConnectionManager.BroadcastToRoom | app/chat.py:25-28 | The loop's deliveries equal `Fanout` of the room's members. An absent room gets none. |
| ChatServer.JoinNotice | app/chat.py:37-41 | The join notice is a system record stamped with the given time, and its text ends with the room's name. |
| ChatServer.LeaveNotice | app/chat.py:72-76 | The leave notice is a system record stamped with the given time, and its text ends with the room's name. It differs from the join notice. |
| ChatServer.Encode | app/chat.py:37-68 | Every record is a JSON object with `type` and `message`. `type` is "system" or "chat", and only chat records carry `username`. |
| ChatServer.Normalise | app/chat.py:48-68 | A parsed object gives its `username` (default "Anonymous") and `message` (default ""), whatever JSON values they hold. Unparsable text is relayed whole, as "Anonymous". |
| ChatServer.AcceptConnection | app/chat.py:33-41 | Register, then broadcast the join notice to the updated room, so the newcomer receives its own notice. |
| ChatServer.RelayFrame | app/chat.py:45-68 | One received frame becomes one broadcast of its normalised record to the room. |
| ChatServer.Relay | app/chat.py:44-68 | No frames, no deliveries. Otherwise the deliveries start with the first frame's broadcast, stamped with the first time. |
| ChatServer.RelayLength | app/chat.py:44-68 | The receive loop makes one delivery per frame and member. |
| ChatServer.RelaySnoc | app/chat.py:44-68 | One more frame appends exactly that frame's broadcast. |
| ChatServer.ReceiveLoop | app/chat.py:44-68 | The loop's deliveries equal `Relay` of the frames in arrival order. |
| ChatServer.CloseConnection | app/chat.py:70-76 | Unregister, then broadcast the leave notice to the remaining members. The leaver hears it exactly when it was registered more than once. |
| ChatServer.ServeConnection | app/chat.py:32-76 | One connection's whole session: join notice, then each frame's record, then the leave notice, with the registry left as `Remove(Add(...))`. |
| ChatRoom.OutgoingFrame | studyroom-frontend/src/components/ChatRoom.jsx:41 | The frame the client sends is an object with exactly the keys `username` and `message`, both strings. |
| ChatRoom.IsOwn | studyroom-frontend/src/components/ChatRoom.jsx:90 | A message is drawn as one's own exactly when it has a `username` field equal to the viewer's name. |
| ChatRoom.ShowsAuthor | studyroom-frontend/src/components/ChatRoom.jsx:98 | Line 98's condition holds exactly when `username` is present, truthy and different from the viewer's name. It never holds on one's own message. |
| ChatRoom.SharedMessage | studyroom-frontend/src/components/ChatRoom.jsx:63 | The shared-file message ends with the file's address followed by ")". |
| ChatRoom.IsImage | studyroom-frontend/src/components/ChatRoom.jsx:111 | A text taken as an image has a "." four or five characters from its end, before the extension. |
| ChatRoom.UrlMatch | studyroom-frontend/src/components/ChatRoom.jsx:113 | `match(...)[0]`, when not null, is the host followed by a non-empty run of non-whitespace characters. |
| ChatRoom.UrlMatchFrom | studyroom-frontend/src/components/ChatRoom.jsx:113 | The leftmost position at or after `from` where the host is followed by a non-whitespace character, or None when there is none. |
| ChatRoom.UrlMatchNull | studyroom-frontend/src/components/ChatRoom.jsx:113 | `match` returns null exactly when the pattern can start nowhere in the text. |
| ChatRoom.MatchAt | studyroom-frontend/src/components/ChatRoom.jsx:113 | A match taken where one can start is the host plus a non-empty, maximal run of non-whitespace, found in the text at that position. |
| ChatRoom.UrlMatchShape | studyroom-frontend/src/components/ChatRoom.jsx:113 | `match(...)[0]`, when not null, is the host plus a maximal non-whitespace run, found in the text at the leftmost match position. |
| ChatRoom.FirstOccurrenceDecides | studyroom-frontend/src/components/ChatRoom.jsx:113 | When the first occurrence of the host is followed by a non-whitespace character, the match starts there. |
| ChatRoom.MatchImpliesIncludes | studyroom-frontend/src/components/ChatRoom.jsx:109-119 | Whenever `match` succeeds, the `includes` guard holds. |
| ChatRoom.RenderLinkAsWritten | studyroom-frontend/src/components/ChatRoom.jsx:109-119 | The link block as written throws exactly when `includes` holds and `match` returns null. |
| ChatRoom.BareHostThrows | studyroom-frontend/src/components/ChatRoom.jsx:109-119 | The bare host, and the host followed by a space, make the render throw. |
| ChatRoom.LinkBlock | studyroom-frontend/src/components/ChatRoom.jsx:109-127 | The link block is shown exactly when an address can be extracted. It is an image exactly when the message also ends in an image extension. |
| ChatRoom.LinkBlockAgrees | studyroom-frontend/src/components/ChatRoom.jsx:109-127 | Wherever the written block renders, it renders exactly what `LinkBlock` gives. |
| ChatRoom.SharedFileNeverImage | studyroom-frontend/src/components/ChatRoom.jsx:111 | A message made by `sendFile` (line 63) ends in ")", so it is never drawn as an image, whatever the file's name. |
| ChatRoom.SharedFileHref | studyroom-frontend/src/components/ChatRoom.jsx:119 | For a server address with a non-empty, whitespace-free path and a file name without the host, the link is a file link to the address with ")" attached. |
| ChatRoom.SendGuardIff | studyroom-frontend/src/components/ChatRoom.jsx:40 | The guard passes exactly when a socket exists and the draft has a non-whitespace character. |
| ChatRoom.ChatRoomView.constructor | studyroom-frontend/src/components/ChatRoom.jsx:8-13 | Initial state: no socket, empty log, empty draft, no file. |
| ChatRoom.ChatRoomView.Mount | studyroom-frontend/src/components/ChatRoom.jsx:16-32 | The effect creates a CONNECTING socket for `ws://localhost:8000/chat/ws/<room>`, unless the constructor refuses that address. The component crashes exactly then, and no socket exists. |
| ChatRoom.ChatRoomView.ChangeRoom | studyroom-frontend/src/components/ChatRoom.jsx:16-32 | The same room reruns nothing. A new room closes the old socket and opens one for the new room, and the message log is kept. If the constructor refuses the new address, the old socket is still closed and the component crashes. |
| ChatRoom.ChatRoomView.SocketOpened | studyroom-frontend/src/components/ChatRoom.jsx:18 | The socket becomes OPEN. It can only happen once a socket exists, and the invariant is kept. |
| ChatRoom.ChatRoomView.SocketClosed | studyroom-frontend/src/components/ChatRoom.jsx:19 | The socket becomes CLOSED. It can only happen once a socket exists, and the invariant is kept. |
| ChatRoom.ChatRoomView.OnMessage | studyroom-frontend/src/components/ChatRoom.jsx:21-28 | A parsed frame arrives on an OPEN socket and is appended to the log. An unparsable one leaves the log unchanged. |
| ChatRoom.ChatRoomView.EditDraft | studyroom-frontend/src/components/ChatRoom.jsx:148 | The draft becomes the typed text. |
| ChatRoom.ChatRoomView.ChooseFile | studyroom-frontend/src/components/ChatRoom.jsx:46 | The chosen file, or none, is stored. |
| ChatRoom.ChatRoomView.SendMessage | studyroom-frontend/src/components/ChatRoom.jsx:39-44 | A frame goes out exactly when a socket exists, the draft is not blank and the socket is not CONNECTING. It carries the untrimmed draft, and the draft is cleared exactly then. |
| ChatRoom.ChatRoomView.SendFile | studyroom-frontend/src/components/ChatRoom.jsx:48-70 | With a file, the upload request carries it, the room and the name. The shared-file frame goes out, and the file is cleared, exactly on a successful upload with a sendable socket. |
| ChatRoom.ChatRoomView.PressSend | studyroom-frontend/src/components/ChatRoom.jsx:159-164 | With a file chosen, the button makes the upload request and keeps the draft. The shared-file frame goes out, and the file is cleared, exactly when the upload succeeds and the socket accepts sends. With no file, there is no request. The draft goes out untrimmed, and is cleared, exactly when a socket exists, the draft is not blank and the socket accepts sends. |
| App.CheckJoin | studyroom-frontend/src/App.jsx:10-18 | Rejects a trimmed name shorter than 3 UTF-16 code units first, then a blank room. Accepts exactly when both checks pass. |
| App.AlertText | studyroom-frontend/src/App.jsx:12-16 | Each failing check has its own non-empty alert text: the username text exactly for the short name, another text for the missing room. |
| App.PaddedShortNameRejected | studyroom-frontend/src/App.jsx:11 | "  ab  " is too short: surrounding whitespace does not count. |
| App.TwoEmojiNameAccepted | studyroom-frontend/src/App.jsx:11 | Two emoji count as four code units and pass. |
| App.AppState.constructor | studyroom-frontend/src/App.jsx:6-8 | Empty fields, not joined. |
| App.AppState.EditUsername | studyroom-frontend/src/App.jsx:33 | Sets the username field on the form. |
| App.AppState.EditRoom | studyroom-frontend/src/App.jsx:41 | Sets the room field on the form. |
| App.AppState.JoinRoom | studyroom-frontend/src/App.jsx:10-20 | Alerts with the first failing check's text. Otherwise it joins, and `joined` never goes back to false. |
| App.AppState.View | studyroom-frontend/src/App.jsx:22-65 | The form shows until joined. Then the chat room shows with the untrimmed, validated fields, under a provider given no room. |
| SocketContext.HasRoom | studyroom-frontend/src/context/SocketContext.jsx:12 | The effect goes on only for a room that is present and non-empty. The empty string stops it. |
| SocketContext.SocketProvider.constructor | studyroom-frontend/src/context/SocketContext.jsx:11-38 | With a non-empty room, one CONNECTING socket for the room's address. Without one, no socket. A room whose address the constructor refuses makes the effect throw: no socket exists and the provider is not mounted. |
| SocketContext.SocketProvider.RunCleanup | studyroom-frontend/src/context/SocketContext.jsx:34-37 | The effect's socket is closed and the flag cleared. |
| SocketContext.SocketProvider.ChangeRoom | studyroom-frontend/src/context/SocketContext.jsx:11-38 | The same room reruns nothing and leaves every field as it was. A new room runs the cleanup, then creates a socket when the new room is non-empty. The `socket` state is never reset. A refused address leaves the cleanup done, no new socket, and the provider crashed. |
| SocketContext.SocketProvider.Unmount | studyroom-frontend/src/context/SocketContext.jsx:34-37 | The pending cleanup runs, closing the effect's socket. The room, the `socket` state and the addresses stay. |
| SocketContext.SocketProvider.OnOpen | studyroom-frontend/src/context/SocketContext.jsx:16-19 | The socket becomes OPEN and the flag is set. The invariant (flag implies the live socket is OPEN) is kept. |
| SocketContext.SocketProvider.OnClose | studyroom-frontend/src/context/SocketContext.jsx:21-24 | Any socket's close clears the flag. |
| SocketContext.SocketProvider.OnError | studyroom-frontend/src/context/SocketContext.jsx:26-29 | Any socket's error clears the flag. |
| SocketContext.SocketProvider.SendMessage | studyroom-frontend/src/context/SocketContext.jsx:40-44 | The message goes out exactly when the `socket` state is OPEN. Whenever `isConnected` holds, it goes out. |
| SocketContext.AsWired | studyroom-frontend/src/App.jsx:61-65 | The provider as the app mounts it, with no room: no socket, never connected, every send dropped. |
| SocketContext.StaleCloseClearsFlag | studyroom-frontend/src/context/SocketContext.jsx:21-37 | After a room change, the old socket's late close clears the flag while the new socket is OPEN, and sends still go out. |
| TypingIndicator.Label | studyroom-frontend/src/components/TypingIndicator.jsx:4-17 | Nothing for no users. Otherwise the names joined by ", " followed by "is typing..." for one user or "are typing..." for several. |
| TypingIndicator.Indicator | studyroom-frontend/src/components/TypingIndicator.jsx:3-4 | A missing prop counts as the empty list. Text is shown exactly for a non-empty list. |
| TypingIndicator.NamesInOrder | studyroom-frontend/src/components/TypingIndicator.jsx:14-17 | Every name appears at its position, in order, with ", " between neighbours and the verb phrase at the end. |
| EndToEnd.Echo | app/chat.py:48-59 | A client frame comes back as a chat record with exactly four keys, holding the sender's name and text, whatever its printed form. |
| EndToEnd.EchoAttribution | studyroom-frontend/src/components/ChatRoom.jsx:90-100 | The sender sees its echo as its own. Others see the name label exactly when the name is non-empty and differs from theirs. |
| EndToEnd.UnparsedTextAttribution | app/chat.py:61-68 | Non-JSON text comes back as "Anonymous": it is the viewer's own exactly when the viewer is named "Anonymous", and labelled for everyone else. |
| EndToEnd.NoticesUnattributed | app/chat.py:37-41 | Join and leave notices are never anyone's own and never labelled. |
| EndToEnd.HashRoomAccepted | studyroom-frontend/src/App.jsx:10-19 | The name "alice" with the room "C#" passes both join checks. |
| EndToEnd.HashRoomCrashes | studyroom-frontend/src/components/ChatRoom.jsx:16-17 | That accepted room makes the chat room's connecting effect throw. |
| EndToEnd.SharedFileEcho | studyroom-frontend/src/components/ChatRoom.jsx:61-64 | A shared file comes back to every participant as a file link whose address ends in ")". |
| JsString.TrimStartSpec | studyroom-frontend/src/App.jsx:11 | Cutting leading whitespace leaves a suffix after nothing but whitespace, and the suffix starts with non-whitespace. |
| JsString.TrimEndSpec | studyroom-frontend/src/App.jsx:11 | Cutting trailing whitespace leaves a prefix before nothing but whitespace, and the prefix ends with non-whitespace. |
| JsString.TrimShape | studyroom-frontend/src/App.jsx:11 | `trim` gives a slice of the input with only whitespace cut off on both sides, and non-whitespace at both of its ends. |
| JsString.Trim | studyroom-frontend/src/App.jsx:11 | `trim` never lengthens the string, and a non-empty result starts and ends with non-whitespace. |
| JsString.TrimEmptyIffAllWhitespace | studyroom-frontend/src/App.jsx:15 | `trim() === ""` exactly when the string is all whitespace. |
| JsString.Utf16Length | studyroom-frontend/src/App.jsx:11 | `.length` lies between the code-point count and twice it, and equals the code-point count exactly for a string inside the Basic Multilingual Plane. |
| JsString.Includes | studyroom-frontend/src/components/ChatRoom.jsx:109 | `includes` fails for a pattern longer than the text, and holds for the empty pattern. |
| JsString.JoinLayout | studyroom-frontend/src/components/TypingIndicator.jsx:16 | `join` places every element at its offset, in order, with the separator between neighbours. |
| JsString.IncludesIffOccurs | studyroom-frontend/src/components/ChatRoom.jsx:109 | `includes` holds exactly when the pattern occurs at some position. |
| JsonValue.Truthy | studyroom-frontend/src/components/ChatRoom.jsx:98-109 | `undefined` and `null` are falsy, and arrays and objects are always truthy. |
| JsonValue.Field | studyroom-frontend/src/components/ChatRoom.jsx:90 | `v.username` and `v.message` give an object's member. They give `undefined` for a missing key and for every other value, since no value inherits a property of either name. |
| WebSocketApi.RoomUrl | studyroom-frontend/src/components/ChatRoom.jsx:17 | The socket address is the fixed prefix followed by the room, unchanged. The constructor accepts it exactly when the room holds no `#`. |
| WebSocketApi.EscapeHash | studyroom-frontend/src/components/ChatRoom.jsx:17 | Writing `#` as `%23` leaves no `#` and changes nothing in a room without one. |
| WebSocketApi.EscapedRoomUrl | studyroom-frontend/src/components/ChatRoom.jsx:17 | The escaped address is accepted for every room, and equals the written one whenever that one is accepted. |

## Left out

- Sockets, `await` and the event loop. Each handler runs to completion as one step. Interleavings between two connections' awaits on the server are not modelled.
- `websocket.accept()`, `send_text` failures and `json.dumps`/`JSON.stringify` printing. A record is delivered as its value.
- `datetime.now()`. Timestamps are parameters.
- `json.loads`/`JSON.parse` parsing. A frame carries its parse result.
- ChatServer.Normalise: requires an object parse result. A frame that parses to a non-object (a number, a string, an array) makes `.get` raise `AttributeError`. That exception is not `WebSocketDisconnect`, so it escapes the endpoint without `disconnect`, and the connection stays registered. This path is not modelled.
- ChatServer.ServeConnection: assumes no other connection joins or leaves the room during the session.
- ChatServer.Disconnect: requires the connection to be in the room when the room exists, because `list.remove` raises otherwise.
- ChatRoom render: only string messages are modelled for the link block. A non-string `message` takes other paths that are not modelled. A truthy number, `true` or an object has no `includes`, so line 109 throws. An array uses `Array.prototype.includes`: it shows no link block unless an element is exactly the host string, and then line 111 throws, because an array has no `match`.
- ChatRoom.IsOwn, ChatRoom.ShowsAuthor: require a message other than `null`, because property access on `null` throws. The server only broadcasts objects.
- ChatRoom.ShowsAuthor: computes line 98's condition only. When `username` is a JSON object, which `app/chat.py:50` relays from any client, the condition holds but rendering the label at line 99 throws, because React cannot render an object as a child. The model does not capture that throw.
- JsonValue.Field: modelled only for the keys `username` and `message`. Other keys can hit inherited properties such as `length` or `toString`.
- The emoji picker, auto-scroll, the "no messages" placeholder and all markup and styling.
- The upload request itself. No `/upload` route exists in `app/chat.py`, so the POST's outcome is an input to `SendFile`.
- The room is spliced into the socket address without URL encoding, and the address is kept as a string. The browser's URL parsing of it is not modelled, apart from the `#` that makes the constructor throw. That parsing changes what the server sees: spaces are percent-encoded, a `?` starts a query so the server's `room_id` is only the part before it, and a `/` adds a path segment that the `/ws/{room_id}` route does not match.
- ChatRoom.ChatRoomView.Mount, ChatRoom.ChatRoomView.ChangeRoom, SocketContext.SocketProvider.constructor, SocketContext.SocketProvider.ChangeRoom: a `SyntaxError` from `new WebSocket` is modelled as a `crashed` flag. React's removal of the whole tree is not modelled beyond that: later events are excluded by the methods' preconditions.
- `socket.send` on a CLOSING or CLOSED socket is accepted and discards the data. The model counts it as handed over.
- Console logging.

## Findings

| source | as written | input that shows it | evidently intended | confidence | as-written member | corrected member |
|---|---|---|---|---|---|---|
| studyroom-frontend/src/components/ChatRoom.jsx:109-119 | The link block is guarded by `includes("http://localhost:8000")` but reads `[0]` of `match(/http:\/\/localhost:8000\S+/)`, which is null when no non-whitespace character follows the host. | the message `http://localhost:8000`, or `http://localhost:8000 is down` | Show a link only when an address can be extracted, and never throw. | not executed | ChatRoom.RenderLinkAsWritten, ChatRoom.BareHostThrows | ChatRoom.LinkBlock, ChatRoom.LinkBlockAgrees |
| studyroom-frontend/src/components/ChatRoom.jsx:17 | The room is spliced unescaped into `new WebSocket(...)`. `joinRoom` (App.jsx:15) rejects only a blank room, so a room holding `#` is accepted, and the constructor then throws a `SyntaxError` for the URL's fragment. | the name `alice` with the room `C#` | Every room that passes the join checks opens a socket, with the room escaped as `encodeURIComponent` would write `#`. | not executed | EndToEnd.HashRoomAccepted, EndToEnd.HashRoomCrashes | WebSocketApi.EscapeHash, WebSocketApi.EscapedRoomUrl |
