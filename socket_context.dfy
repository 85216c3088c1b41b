/** The socket provider (studyroom-frontend/src/context/SocketContext.jsx):
    one socket per room prop, the `isConnected` flag its event handlers
    drive, and a `sendMessage` guarded on the OPEN state. The flag and the
    socket are component state; sockets are told apart by their creation
    order. */
module SocketContext {
  import opened Wrappers
  import opened JsonValue
  import opened WebSocketApi

  /** `if (!room) return`: a missing or empty room prop does not connect. */
  predicate HasRoom(room: Option<string>)
    ensures HasRoom(room) ==> room.Some? && |room.value| > 0
    ensures room == Some("") ==> !HasRoom(room)
  {
    room.Some? && room.value != ""
  }

  class SocketProvider {
    /** The `room` prop. */
    var room: Option<string>
    /** The `socket` state: the last socket created (an index into `sockets`);
        it is never reset, not even after its cleanup. */
    var socket: Option<nat>
    /** The ready state of every socket the provider created. */
    var sockets: seq<ReadyState>
    /** The address each socket was opened on. */
    var addresses: seq<string>
    /** The socket the pending effect cleanup will close, if the last effect
        created one. */
    var cleanup: Option<nat>
    var isConnected: bool
    var mounted: bool
    /** The effect threw (`new WebSocket` refused the room's address).
        Nothing catches the error, so React removes the tree. */
    var crashed: bool

    ghost predicate Valid()
      reads this
    {
      && |addresses| == |sockets|
      && (socket.Some? ==> socket.value < |sockets|)
      && (cleanup.Some? ==> cleanup == socket)
      && (mounted ==> (cleanup.Some? <==> HasRoom(room)))
      && (!mounted ==> cleanup.None?)
      && (crashed ==> !mounted)
      // only the socket of the live effect can still be connecting or open
      && (forall id :: 0 <= id < |sockets| && Some(id) != cleanup ==>
            sockets[id] == Closing || sockets[id] == Closed)
      // the one-way link between the flag and the socket
      && (isConnected ==> cleanup.Some? && sockets[cleanup.value] == Open)
    }

    /** The first render followed by the effect: with a room, a socket is
        created for it; without one, nothing happens. A room whose address
        the constructor refuses makes the effect throw. */
    constructor (room: Option<string>)
      ensures Valid() && this.room == room && !isConnected
      ensures crashed <==> HasRoom(room) && !Constructible(RoomUrl(room.value))
      ensures mounted <==> !crashed
      ensures HasRoom(room) && !crashed ==>
        sockets == [Connecting] && addresses == [RoomUrl(room.value)] && socket == Some(0)
      ensures !HasRoom(room) || crashed ==> sockets == [] && addresses == [] && socket == None
    {
      this.room := room;
      mounted := true;
      isConnected := false;
      crashed := false;
      if HasRoom(room) && !Constructible(RoomUrl(room.value)) {
        sockets := [];
        addresses := [];
        socket := None;
        cleanup := None;
        crashed := true;
        mounted := false;
      } else if HasRoom(room) {
        sockets := [Connecting];
        addresses := [RoomUrl(room.value)];
        socket := Some(0);
        cleanup := Some(0);
      } else {
        sockets := [];
        addresses := [];
        socket := None;
        cleanup := None;
      }
    }

    /** The effect's cleanup: close the socket and clear the flag. */
    method RunCleanup()
      requires Valid() && cleanup.Some?
      modifies this
      ensures && cleanup == None && !isConnected
              && sockets == old(sockets)[old(cleanup.value) := AfterClose(old(sockets[cleanup.value]))]
              && addresses == old(addresses) && socket == old(socket)
              && room == old(room) && mounted == old(mounted) && crashed == old(crashed)
    {
      var id := cleanup.value;
      sockets := sockets[id := AfterClose(sockets[id])];
      isConnected := false;
      cleanup := None;
    }

    /** A new `room` prop. React reruns the effect only when it differs:
        the old effect's cleanup (if it made a socket), then a new socket
        when the new room is given. When the constructor refuses the new
        room's address, the cleanup has run and the effect throws. */
    method ChangeRoom(newRoom: Option<string>)
      requires Valid() && mounted
      modifies this
      ensures Valid() && room == newRoom
      ensures crashed <==> newRoom != old(room) && HasRoom(newRoom) && !Constructible(RoomUrl(newRoom.value))
      ensures mounted <==> !crashed
      ensures newRoom == old(room) ==>
        && sockets == old(sockets) && addresses == old(addresses)
        && socket == old(socket) && cleanup == old(cleanup) && isConnected == old(isConnected)
      ensures newRoom != old(room) ==> !isConnected
      ensures newRoom != old(room) && HasRoom(newRoom) && !crashed ==>
        && |sockets| == |old(sockets)| + 1
        && sockets[..|old(sockets)|] ==
             (if old(cleanup).Some?
              then old(sockets)[old(cleanup.value) := AfterClose(old(sockets[cleanup.value]))]
              else old(sockets))
        && sockets == sockets[..|old(sockets)|] + [Connecting]
        && addresses == old(addresses) + [RoomUrl(newRoom.value)]
        && socket == Some(|old(sockets)|) && cleanup == socket
      ensures newRoom != old(room) && (!HasRoom(newRoom) || crashed) ==>
        && sockets == (if old(cleanup).Some?
                       then old(sockets)[old(cleanup.value) := AfterClose(old(sockets[cleanup.value]))]
                       else old(sockets))
        && addresses == old(addresses) && socket == old(socket) && cleanup == None
    {
      if newRoom == room {
        return;
      }
      if cleanup.Some? {
        RunCleanup();
      }
      isConnected := false;
      room := newRoom;
      if HasRoom(newRoom) && !Constructible(RoomUrl(newRoom.value)) {
        crashed := true;
        mounted := false;
      } else if HasRoom(newRoom) {
        var id := |sockets|;
        sockets := sockets + [Connecting];
        addresses := addresses + [RoomUrl(newRoom.value)];
        socket := Some(id);
        cleanup := Some(id);
      }
    }

    /** Unmounting runs the pending cleanup, if any. */
    method Unmount()
      requires Valid() && mounted
      modifies this
      ensures Valid() && !mounted && !isConnected
      ensures room == old(room) && socket == old(socket) && addresses == old(addresses) && cleanup == None
      ensures crashed == old(crashed)
      ensures sockets == if old(cleanup).Some?
                         then old(sockets)[old(cleanup.value) := AfterClose(old(sockets[cleanup.value]))]
                         else old(sockets)
    {
      if cleanup.Some? {
        RunCleanup();
      }
      isConnected := false;
      mounted := false;
    }

    /** `onopen` of socket `id`: the flag is set. */
    method OnOpen(id: nat)
      requires Valid() && id < |sockets| && sockets[id] == Connecting
      modifies this`sockets, this`isConnected
      ensures Valid() && isConnected
      ensures sockets == old(sockets)[id := Open]
    {
      sockets := sockets[id := Open];
      isConnected := true;
    }

    /** `onclose` of socket `id`, whichever socket it is: the flag is cleared. */
    method OnClose(id: nat)
      requires Valid() && id < |sockets|
      modifies this`sockets, this`isConnected
      ensures Valid() && !isConnected
      ensures sockets == old(sockets)[id := Closed]
    {
      sockets := sockets[id := Closed];
      isConnected := false;
    }

    /** `onerror` of socket `id`: a failed socket is CLOSED and the flag is
        cleared. */
    method OnError(id: nat)
      requires Valid() && id < |sockets|
      modifies this`sockets, this`isConnected
      ensures Valid() && !isConnected
      ensures sockets == old(sockets)[id := Closed]
    {
      sockets := sockets[id := Closed];
      isConnected := false;
    }

    /** `sendMessage`: the message goes out (as `JSON.stringify(message)`)
        only through an existing socket whose state is OPEN; otherwise it is
        dropped, with no queue. Whenever the flag is set, a send goes out. */
    method SendMessage(message: Json) returns (sent: Option<Json>)
      requires Valid()
      ensures sent.Some? <==> socket.Some? && sockets[socket.value] == Open
      ensures sent.Some? ==> sent.value == message
      ensures isConnected ==> sent == Some(message)
    {
      if socket.Some? && sockets[socket.value] == Open {
        sent := Some(message);
      } else {
        sent := None;
      }
    }
  }

  /** The provider as the app mounts it, with no room: no socket exists, so
      no event can reach it, the flag is false and every send is dropped. */
  method AsWired(message: Json) returns (sent: Option<Json>, connected: bool, created: nat)
    ensures sent == None && !connected && created == 0
  {
    var provider := new SocketProvider(None);
    sent := provider.SendMessage(message);
    connected := provider.isConnected;
    created := |provider.sockets|;
  }

  /** The flag does not track the current socket in both directions: after a
      room change, a late `close` event of the old socket clears it while the
      new socket is open and sends still go out. */
  method StaleCloseClearsFlag(message: Json) returns (sent: Option<Json>, connected: bool)
    ensures sent == Some(message) && !connected
  {
    var provider := new SocketProvider(Some("math"));
    provider.OnOpen(0);
    provider.ChangeRoom(Some("physics"));
    provider.OnOpen(1);
    provider.OnClose(0);
    sent := provider.SendMessage(message);
    connected := provider.isConnected;
  }
}
