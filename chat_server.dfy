/** The server side of the chat (app/chat.py): the room registry kept by
    `ConnectionManager`, the records it broadcasts, and the per-connection
    endpoint that turns inbound text frames into chat records. Sockets,
    `await`, `datetime.now()` and the JSON codec are outside the model: a
    connection is an identity, a frame arrives with its parse result, a
    timestamp is a parameter and a broadcast returns the deliveries it makes. */
module ChatServer {
  import opened Wrappers
  import opened JsonValue

  /** A websocket connection, known only by its identity (Python's `==` on
      a WebSocket object). */
  datatype Connection = Connection(id: nat)

  /** `active_connections`: each room's connections in the order they joined. */
  type Registry = map<string, seq<Connection>>

  /** The registry invariant: a room is dropped as soon as its list empties. */
  ghost predicate NoEmptyRooms(m: Registry) {
    forall room :: room in m ==> m[room] != []
  }

  /** A room's connections; an absent room has none. */
  function Members(m: Registry, room: string): seq<Connection> {
    if room in m then m[room] else []
  }

  /** The registry after `connect(ws, room)`: `ws` appended to the room's
      list, the room created first when absent, every other room untouched. */
  function Add(m: Registry, ws: Connection, room: string): (m': Registry)
    ensures Members(m', room) == Members(m, room) + [ws]
    ensures m'.Keys == m.Keys + {room}
    ensures forall r :: r in m && r != room ==> m'[r] == m[r]
    ensures NoEmptyRooms(m) ==> NoEmptyRooms(m')
  {
    m[room := Members(m, room) + [ws]]
  }

  /** The index of the first occurrence of `x` in `s`. */
  function FirstIndex(s: seq<Connection>, x: Connection): (i: nat)
    requires x in s
    ensures i < |s| && s[i] == x && x !in s[..i]
  {
    if s[0] == x then 0 else 1 + FirstIndex(s[1..], x)
  }

  /** Python's `list.remove(x)` on a list holding `x`: exactly the first
      occurrence is taken out, everything else keeps its order. */
  function RemoveFirst(s: seq<Connection>, x: Connection): (r: seq<Connection>)
    requires x in s
    ensures r == s[..FirstIndex(s, x)] + s[FirstIndex(s, x) + 1..]
    ensures |r| == |s| - 1
  {
    if s[0] == x then s[1..]
    else
      assert s[1..][..FirstIndex(s[1..], x)] == s[1..FirstIndex(s, x)];
      [s[0]] + RemoveFirst(s[1..], x)
  }

  /** The registry after `disconnect(ws, room)`. `list.remove` raises when
      `ws` is not in the room, so that is excluded; an absent room is left
      alone; a room whose list empties is deleted. */
  function Remove(m: Registry, ws: Connection, room: string): (m': Registry)
    requires room in m ==> ws in m[room]
    ensures room !in m ==> m' == m
    ensures room in m ==> Members(m', room) == RemoveFirst(m[room], ws)
    ensures room in m ==> |Members(m', room)| == |m[room]| - 1
    ensures m'.Keys == if room in m && Members(m', room) == [] then m.Keys - {room} else m.Keys
    ensures forall r :: r in m && r != room ==> m'[r] == m[r]
    ensures NoEmptyRooms(m) ==> NoEmptyRooms(m')
  {
    if room !in m then m
    else
      var rest := RemoveFirst(m[room], ws);
      if rest == [] then m - {room} else m[room := rest]
  }

  /** Taking out an element that was just appended, and occurs nowhere
      else, gives back the original list. */
  lemma RemoveFirstAppended(s: seq<Connection>, x: Connection)
    requires x !in s
    ensures RemoveFirst(s + [x], x) == s
  {
    var t := s + [x];
    var i := FirstIndex(t, x);
    assert t[..i] == s;
  }

  /** Round trip: `connect(ws, room)` then `disconnect(ws, room)`, for a
      connection not already in the room, restores the registry exactly,
      deleting the room again if the connect created it. */
  lemma {:induction false} ConnectDisconnectRoundTrip(m: Registry, ws: Connection, room: string)
    requires NoEmptyRooms(m)
    requires ws !in Members(m, room)
    ensures Remove(Add(m, ws, room), ws, room) == m
  {
    var a := Add(m, ws, room);
    RemoveFirstAppended(Members(m, room), ws);
    var r := Remove(a, ws, room);
    if room in m {
      assert Members(r, room) == m[room] != [];
      assert r.Keys == m.Keys;
    } else {
      assert Members(r, room) == [];
      assert r.Keys == m.Keys;
    }
  }

  /** How many copies of `x` the first-occurrence removal leaves. */
  lemma {:induction false} RemoveFirstCount(s: seq<Connection>, x: Connection)
    requires x in s
    ensures multiset(RemoveFirst(s, x))[x] == multiset(s)[x] - 1
  {
    assert s == [s[0]] + s[1..];
    if s[0] != x {
      RemoveFirstCount(s[1..], x);
      assert RemoveFirst(s, x) == [s[0]] + RemoveFirst(s[1..], x);
    }
  }

  /** The leaving connection is still in its room after `disconnect` exactly
      when it had been connected to that room more than once. */
  lemma {:induction false} LeaverStaysIff(m: Registry, ws: Connection, room: string)
    requires ws in Members(m, room)
    ensures ws in Members(Remove(m, ws, room), room) <==> multiset(Members(m, room))[ws] > 1
  {
    RemoveFirstCount(m[room], ws);
  }

  /** What `broadcast_to_room` delivers: a payload to one connection. */
  datatype Delivery = Delivery(to: Connection, record: Record)

  /** The records the server broadcasts, before `json.dumps`. */
  datatype Record =
    | System(text: string, timestamp: string)
    | Chat(username: Json, message: Json, timestamp: string)

  /** The dictionary the server serialises for a record. */
  function Encode(r: Record): (j: Json)
    ensures j.JObject? && "type" in j.fields && "message" in j.fields
    ensures j.fields["type"] == JString(if r.System? then "system" else "chat")
    ensures ("username" in j.fields) == r.Chat?
  {
    match r
    case System(text, timestamp) =>
      JObject(map["type" := JString("system"), "message" := JString(text),
                  "timestamp" := JString(timestamp)])
    case Chat(username, message, timestamp) =>
      JObject(map["type" := JString("chat"), "username" := username, "message" := message,
                  "timestamp" := JString(timestamp)])
  }

  /** The notice broadcast after a connection registers. */
  function JoinNotice(room: string, now: string): (r: Record)
    ensures r.System? && r.timestamp == now
    ensures |room| <= |r.text| && r.text[|r.text| - |room|..] == room
  {
    System("\U{1F4E2} A new user joined room " + room, now)
  }

  /** The notice broadcast after a connection is removed. */
  function LeaveNotice(room: string, now: string): (r: Record)
    ensures r.System? && r.timestamp == now
    ensures |room| <= |r.text| && r.text[|r.text| - |room|..] == room
    ensures r != JoinNotice(room, now)
  {
    System("\U{274C} A user left room " + room, now)
  }

  /** An inbound text frame and what `json.loads` made of it (None: it
      raised `JSONDecodeError`). */
  datatype Frame = Frame(raw: string, parsed: Option<Json>)

  /** The chat record the endpoint broadcasts for a frame. A parsed frame
      contributes its `username` (default "Anonymous") and `message`
      (default "") fields, whatever JSON values they hold; unparsable text
      is relayed whole as an anonymous message. The server calls `.get` on
      the parse result, which only an object supports. */
  function Normalise(frame: Frame, now: string): (r: Record)
    requires frame.parsed.Some? ==> frame.parsed.value.JObject?
    ensures r.Chat? && r.timestamp == now
    ensures frame.parsed.None? ==> r.username == JString("Anonymous") && r.message == JString(frame.raw)
    ensures frame.parsed.Some? ==>
      var fields := frame.parsed.value.fields;
      && r.username == (if "username" in fields then fields["username"] else JString("Anonymous"))
      && r.message == (if "message" in fields then fields["message"] else JString(""))
  {
    match frame.parsed
    case None => Chat(JString("Anonymous"), JString(frame.raw), now)
    case Some(v) =>
      var fields := v.fields;
      Chat(if "username" in fields then fields["username"] else JString("Anonymous"),
           if "message" in fields then fields["message"] else JString(""), now)
  }

  /** The deliveries of one broadcast over `conns`: one per list entry, in
      list order. */
  function Fanout(conns: seq<Connection>, record: Record): (ds: seq<Delivery>)
    ensures |ds| == |conns|
    ensures forall i :: 0 <= i < |conns| ==> ds[i] == Delivery(conns[i], record)
  {
    if conns == [] then []
    else [Delivery(conns[0], record)] + Fanout(conns[1..], record)
  }

  /** A connection receives the broadcast exactly when it is registered. */
  lemma FanoutReaches(conns: seq<Connection>, record: Record, c: Connection)
    ensures c in conns <==> Delivery(c, record) in Fanout(conns, record)
  {
    var ds := Fanout(conns, record);
    if c in conns {
      var i :| 0 <= i < |conns| && conns[i] == c;
      assert ds[i] == Delivery(c, record);
    }
    if Delivery(c, record) in ds {
      var i :| 0 <= i < |ds| && ds[i] == Delivery(c, record);
      assert conns[i] == c;
    }
  }

  class ConnectionManager {
    var activeConnections: Registry

    ghost predicate Valid()
      reads this
    {
      NoEmptyRooms(activeConnections)
    }

    constructor ()
      ensures Valid() && activeConnections == map[]
    {
      activeConnections := map[];
    }

    /** `connect`: register `ws` at the end of its room (accepting the
        handshake is not modelled). */
    method Connect(ws: Connection, room: string)
      requires Valid()
      modifies this
      ensures Valid()
      ensures activeConnections == Add(old(activeConnections), ws, room)
    {
      if room !in activeConnections {
        activeConnections := activeConnections[room := []];
      }
      activeConnections := activeConnections[room := activeConnections[room] + [ws]];
    }

    /** `disconnect`: take `ws` out of its room, dropping the room once empty. */
    method Disconnect(ws: Connection, room: string)
      requires Valid()
      requires room in activeConnections ==> ws in activeConnections[room]
      modifies this
      ensures Valid()
      ensures activeConnections == Remove(old(activeConnections), ws, room)
    {
      if room in activeConnections {
        activeConnections := activeConnections[room := RemoveFirst(activeConnections[room], ws)];
        if activeConnections[room] == [] {
          activeConnections := activeConnections - {room};
        }
      }
    }

    /** `broadcast_to_room`: send `message` to every connection of the room,
        in list order, once per entry; an absent room gets nothing. */
    method BroadcastToRoom(message: Record, room: string) returns (sends: seq<Delivery>)
      ensures sends == Fanout(Members(activeConnections, room), message)
    {
      sends := [];
      if room in activeConnections {
        var conns := activeConnections[room];
        for i := 0 to |conns|
          invariant |sends| == i
          invariant forall k :: 0 <= k < i ==> sends[k] == Delivery(conns[k], message)
        {
          sends := sends + [Delivery(conns[i], message)];
        }
      }
    }
  }

  /** The endpoint's first two steps: register, then announce the arrival.
      Registration comes first, so the newcomer receives its own notice. */
  method AcceptConnection(manager: ConnectionManager, ws: Connection, room: string, now: string)
    returns (sends: seq<Delivery>)
    requires manager.Valid()
    modifies manager
    ensures manager.Valid()
    ensures manager.activeConnections == Add(old(manager.activeConnections), ws, room)
    ensures sends == Fanout(Members(manager.activeConnections, room), JoinNotice(room, now))
    ensures Delivery(ws, JoinNotice(room, now)) in sends
  {
    manager.Connect(ws, room);
    sends := manager.BroadcastToRoom(JoinNotice(room, now), room);
    FanoutReaches(Members(manager.activeConnections, room), JoinNotice(room, now), ws);
  }

  /** One turn of the receive loop: the room hears the frame's chat record. */
  method RelayFrame(manager: ConnectionManager, room: string, frame: Frame, now: string)
    returns (sends: seq<Delivery>)
    requires frame.parsed.Some? ==> frame.parsed.value.JObject?
    ensures sends == Fanout(Members(manager.activeConnections, room), Normalise(frame, now))
  {
    sends := manager.BroadcastToRoom(Normalise(frame, now), room);
  }

  /** Frames the endpoint can process: each parses to an object or not at
      all. */
  predicate Processable(frames: seq<Frame>) {
    forall k :: 0 <= k < |frames| ==> ProcessableFrame(frames[k])
  }

  predicate ProcessableFrame(f: Frame) {
    f.parsed.Some? ==> f.parsed.value.JObject?
  }

  /** The deliveries of the receive loop: each frame's chat record to every
      member of the room, frame after frame, stamped by `clock`. */
  function Relay(conns: seq<Connection>, frames: seq<Frame>, clock: seq<string>): (ds: seq<Delivery>)
    requires Processable(frames) && |clock| == |frames|
    ensures frames == [] ==> ds == []
    ensures frames != [] ==>
      && |conns| <= |ds|
      && ds[..|conns|] == Fanout(conns, Normalise(frames[0], clock[0]))
  {
    if frames == [] then []
    else
      ProcessableTail(frames);
      Fanout(conns, Normalise(frames[0], clock[0])) + Relay(conns, frames[1..], clock[1..])
  }

  /** The loop makes one delivery per frame and member. */
  lemma {:induction false} RelayLength(conns: seq<Connection>, frames: seq<Frame>, clock: seq<string>)
    requires Processable(frames) && |clock| == |frames|
    ensures |Relay(conns, frames, clock)| == |frames| * |conns|
  {
    if frames != [] {
      ProcessableTail(frames);
      RelayLength(conns, frames[1..], clock[1..]);
      assert |frames| * |conns| == |conns| + (|frames| - 1) * |conns|;
    }
  }

  /** Relaying one more frame appends that frame's broadcast. */
  lemma {:induction false} RelaySnoc(conns: seq<Connection>, frames: seq<Frame>, clock: seq<string>, f: Frame, now: string)
    requires Processable(frames) && ProcessableFrame(f) && |clock| == |frames|
    ensures Processable(frames + [f])
    ensures Relay(conns, frames + [f], clock + [now])
         == Relay(conns, frames, clock) + Fanout(conns, Normalise(f, now))
  {
    var fs, cs := frames + [f], clock + [now];
    ProcessableSnoc(frames, f);
    if frames != [] {
      var h := Fanout(conns, Normalise(frames[0], clock[0]));
      assert fs[0] == frames[0] && cs[0] == clock[0];
      assert fs[1..] == frames[1..] + [f] && cs[1..] == clock[1..] + [now];
      ProcessableTail(frames);
      RelaySnoc(conns, frames[1..], clock[1..], f, now);
      assert Relay(conns, fs, cs) == h + Relay(conns, fs[1..], cs[1..]);
    }
  }

  /** A processable frame appended to processable frames. */
  lemma ProcessableSnoc(frames: seq<Frame>, f: Frame)
    requires Processable(frames) && ProcessableFrame(f)
    ensures Processable(frames + [f])
  {
    var fs := frames + [f];
    forall k | 0 <= k < |fs| ensures ProcessableFrame(fs[k]) {
      if k < |frames| { assert fs[k] == frames[k]; }
    }
  }

  /** The first frame and the rest of processable frames are processable. */
  lemma ProcessableTail(frames: seq<Frame>)
    requires Processable(frames) && frames != []
    ensures ProcessableFrame(frames[0]) && Processable(frames[1..])
  {
    forall k | 0 <= k < |frames| - 1 ensures ProcessableFrame(frames[1..][k]) {
      assert frames[1..][k] == frames[k + 1];
    }
  }

  /** The `WebSocketDisconnect` handler: unregister, then announce the
      departure. Removal comes first, so the leaver hears its own notice only
      if it was in the room more than once. */
  method CloseConnection(manager: ConnectionManager, ws: Connection, room: string, now: string)
    returns (sends: seq<Delivery>)
    requires manager.Valid()
    requires ws in Members(manager.activeConnections, room)
    modifies manager
    ensures manager.Valid()
    ensures manager.activeConnections == Remove(old(manager.activeConnections), ws, room)
    ensures sends == Fanout(Members(manager.activeConnections, room), LeaveNotice(room, now))
    ensures Delivery(ws, LeaveNotice(room, now)) in sends
        <==> multiset(Members(old(manager.activeConnections), room))[ws] > 1
  {
    ghost var before := manager.activeConnections;
    manager.Disconnect(ws, room);
    sends := manager.BroadcastToRoom(LeaveNotice(room, now), room);
    LeaverStaysIff(before, ws, room);
    FanoutReaches(Members(manager.activeConnections, room), LeaveNotice(room, now), ws);
  }

  /** The receive loop of `websocket_endpoint`: every frame, in arrival
      order, becomes one broadcast to the room; `stamps` holds the successive
      timestamps. */
  method ReceiveLoop(manager: ConnectionManager, room: string, frames: seq<Frame>, stamps: seq<string>)
    returns (sends: seq<Delivery>)
    requires Processable(frames) && |stamps| == |frames|
    ensures sends == Relay(Members(manager.activeConnections, room), frames, stamps)
  {
    ghost var conns := Members(manager.activeConnections, room);
    sends := [];
    var i := 0;
    while i < |frames|
      invariant 0 <= i <= |frames|
      invariant sends == Relay(conns, frames[..i], stamps[..i])
    {
      assert frames[..i + 1] == frames[..i] + [frames[i]];
      assert stamps[..i + 1] == stamps[..i] + [stamps[i]];
      var more := RelayFrame(manager, room, frames[i], stamps[i]);
      RelaySnoc(conns, frames[..i], stamps[..i], frames[i], stamps[i]);
      sends := sends + more;
      i := i + 1;
    }
    assert frames[..i] == frames && stamps[..i] == stamps;
  }

  /** `websocket_endpoint` for one connection that sends `frames` and then
      disconnects, with no other connection joining or leaving meanwhile:
      the arrival notice, then each frame's chat record, then the departure
      notice, in that order. `clock` supplies the successive timestamps. */
  method ServeConnection(manager: ConnectionManager, ws: Connection, room: string,
                         frames: seq<Frame>, clock: seq<string>)
    returns (sends: seq<Delivery>)
    requires manager.Valid()
    requires Processable(frames) && |clock| == |frames| + 2
    modifies manager
    ensures manager.Valid()
    ensures var joined := Add(old(manager.activeConnections), ws, room);
      && manager.activeConnections == Remove(joined, ws, room)
      && sends == Fanout(Members(joined, room), JoinNotice(room, clock[0]))
                + Relay(Members(joined, room), frames, clock[1..|frames| + 1])
                + Fanout(Members(manager.activeConnections, room), LeaveNotice(room, clock[|frames| + 1]))
  {
    var greeting := AcceptConnection(manager, ws, room, clock[0]);
    var chat := ReceiveLoop(manager, room, frames, clock[1..|frames| + 1]);
    var farewell := CloseConnection(manager, ws, room, clock[|frames| + 1]);
    sends := greeting + chat + farewell;
  }
}
