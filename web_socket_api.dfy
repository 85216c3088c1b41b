/** The browser's WebSocket object as far as the client code depends on it. */
module WebSocketApi {

  /** `WebSocket.readyState`. A socket starts CONNECTING; the `open` event
      makes it OPEN; `close()` makes a CONNECTING or OPEN socket CLOSING; the
      `error` and `close` events leave it CLOSED. */
  datatype ReadyState = Connecting | Open | Closing | Closed

  /** A socket the client created: a serial number that tells sockets apart
      and the address it was opened on. */
  datatype Socket = Socket(serial: nat, url: string)

  /** `new WebSocket(url)` parses `url` and throws a `SyntaxError` when the
      parse fails, when the scheme is not `ws` or `wss`, or when the URL has a
      fragment. The addresses built here all start with
      `ws://localhost:8000/`, and the parser accepts any path after that, so
      for them the constructor throws exactly when the text holds a `#`. */
  predicate Constructible(url: string) {
    '#' !in url
  }

  /** The address both clients open for a room:
      `ws://localhost:8000/chat/ws/${room}`, with the room spliced in as it is.
      A room holding a `#` gives an address the constructor refuses. */
  function RoomUrl(room: string): (u: string)
    ensures |u| == |"ws://localhost:8000/chat/ws/"| + |room|
    ensures u[|"ws://localhost:8000/chat/ws/"|..] == room
    ensures Constructible(u) <==> '#' !in room
  {
    "ws://localhost:8000/chat/ws/" + room
  }

  /** `room` with every `#` written `%23`, as `encodeURIComponent` writes it. */
  function EscapeHash(room: string): (r: string)
    ensures '#' !in r
    ensures '#' !in room ==> r == room
  {
    if room == "" then ""
    else (if room[0] == '#' then "%23" else [room[0]]) + EscapeHash(room[1..])
  }

  /** The address with the room's `#` escaped: the constructor accepts it for
      every room, and it is the written address whenever that one is
      accepted. */
  function EscapedRoomUrl(room: string): (u: string)
    ensures Constructible(u)
    ensures Constructible(RoomUrl(room)) ==> u == RoomUrl(room)
  {
    RoomUrl(EscapeHash(room))
  }

  /** The state `close()` leaves a socket in. */
  function AfterClose(s: ReadyState): ReadyState {
    if s == Connecting || s == Open then Closing else s
  }
}
