/** The chat room component of the browser client
    (studyroom-frontend/src/components/ChatRoom.jsx): its state (socket,
    message log, draft, chosen file), the handlers that change it, and the
    predicates its render applies to each message. React's re-rendering, the
    markup, scrolling, the emoji picker and the upload request itself are
    outside the model; the upload's outcome is a parameter. */
module ChatRoom {
  import opened Wrappers
  import opened JsonValue
  import opened JsString
  import opened WebSocketApi

  /** The address of the server, which the render looks for in messages. */
  const Host := "http://localhost:8000"

  /** What the client sends for a message: `JSON.stringify({username, message})`,
      kept as the value before printing. */
  function OutgoingFrame(username: string, text: string): (j: Json)
    ensures j.JObject? && j.fields.Keys == {"username", "message"}
    ensures j.fields["username"] == JString(username) && j.fields["message"] == JString(text)
  {
    JObject(map["username" := JString(username), "message" := JString(text)])
  }

  /** The text `sendFile` shares after an upload. */
  function SharedMessage(name: string, url: string): (r: string)
    ensures |r| > |url| && r[|r| - 1] == ')'
    ensures r[|r| - 1 - |url|..|r| - 1] == url
  {
    "\U{1F4CE} Shared: " + name + " (" + url + ")"
  }

  /** The file chosen in the picker; only its name reaches the chat. */
  datatype FileRef = FileRef(name: string)

  /** How the upload POST ended: the server's `file_url`, or an error. */
  datatype UploadOutcome = Uploaded(fileUrl: string) | UploadFailed

  /** The multipart form `sendFile` posts. */
  datatype UploadRequest = UploadRequest(file: FileRef, room: string, username: string)

  /** A frame handed to `socket.send` without an exception. */
  datatype Transmission = Transmission(socket: Socket, frame: Json)

  /** `socket.send` throws InvalidStateError on a socket still CONNECTING;
      on any other socket it returns (a CLOSING or CLOSED socket discards
      the data). */
  predicate SendAccepted(state: ReadyState) {
    state != Connecting
  }

  // ---------------------------------------------------------------------
  // Render predicates

  /** `m.username === username`: the message is drawn as the user's own. */
  predicate IsOwn(m: Json, username: string)
    requires !m.JNull?
    ensures IsOwn(m, username) <==>
      m.JObject? && "username" in m.fields && m.fields["username"] == JString(username)
  {
    Field(m, "username") == Some(JString(username))
  }

  /** `m.username && m.username !== username`: the author's name is shown
      above the message. */
  predicate ShowsAuthor(m: Json, username: string)
    requires !m.JNull?
    ensures ShowsAuthor(m, username) ==> !IsOwn(m, username)
    ensures ShowsAuthor(m, username) <==>
      m.JObject? && "username" in m.fields && Truthy(Some(m.fields["username"]))
      && m.fields["username"] != JString(username)
  {
    Truthy(Field(m, "username")) && !IsOwn(m, username)
  }

  /** The image test `/\.(jpg|jpeg|png|gif)$/i`: the whole message ends in
      one of the four extensions, in any ASCII case. */
  predicate IsImage(text: string)
    ensures IsImage(text) ==>
      && 4 <= |text|
      && (text[|text| - 4] == '.' || (5 <= |text| && text[|text| - 5] == '.'))
  {
    || EndsWithIgnoreCase(text, ".jpg") || EndsWithIgnoreCase(text, ".jpeg")
    || EndsWithIgnoreCase(text, ".png") || EndsWithIgnoreCase(text, ".gif")
  }

  /** The pattern `/http:\/\/localhost:8000\S+/` can start at `i`: the host
      occurs there and at least one non-whitespace character follows it. */
  predicate UrlMatchAt(text: string, i: nat) {
    OccursAt(text, Host, i) && i + |Host| < |text| && !IsWhitespace(text[i + |Host|])
  }

  /** The leftmost start of a match at or after `from`. */
  function UrlMatchFrom(text: string, from: nat): (r: Option<nat>)
    decreases |text| - from
    ensures r.Some? ==> from <= r.value && UrlMatchAt(text, r.value)
    ensures r.Some? ==> forall j :: from <= j < r.value ==> !UrlMatchAt(text, j)
    ensures r.None? ==> forall j :: from <= j ==> !UrlMatchAt(text, j)
  {
    if from + |Host| >= |text| then None
    else if UrlMatchAt(text, from) then Some(from)
    else UrlMatchFrom(text, from + 1)
  }

  /** `text.match(/http:\/\/localhost:8000\S+/)[0]`, or None where `match`
      returns null: the host at the leftmost match position, followed by
      the greedy run of non-whitespace there. */
  function UrlMatch(text: string): (r: Option<string>)
    ensures r.Some? ==> |Host| < |r.value| && r.value[..|Host|] == Host && NoWhitespace(r.value[|Host|..])
  {
    match UrlMatchFrom(text, 0)
    case None => None
    case Some(i) => Some(Host + NonSpaceRun(text[i + |Host|..]))
  }

  /** The match taken at a position where one can start: the host there,
      then non-whitespace up to the next whitespace or the end. */
  lemma MatchAt(text: string, i: nat)
    requires UrlMatchAt(text, i)
    ensures var u := Host + NonSpaceRun(text[i + |Host|..]);
      && i + |u| <= |text| && text[i..i + |u|] == u
      && |u| > |Host| && u[..|Host|] == Host && NoWhitespace(u[|Host|..])
      && (i + |u| == |text| || IsWhitespace(text[i + |u|]))
  {
    var rest := text[i + |Host|..];
    var run := NonSpaceRun(rest);
    var u := Host + run;
    assert rest[0] == text[i + |Host|];
    assert |run| > 0;
    assert text[i + |Host|..i + |u|] == rest[..|run|];
    assert text[i..i + |u|] == text[i..i + |Host|] + text[i + |Host|..i + |u|];
    assert u[..|Host|] == Host && u[|Host|..] == run;
    assert i + |u| < |text| ==> text[i + |u|] == rest[|run|];
  }

  /** `match` returns null exactly when the pattern can start nowhere. */
  lemma UrlMatchNull(text: string)
    ensures UrlMatch(text).None? <==> forall j :: !UrlMatchAt(text, j)
  {
    var r := UrlMatchFrom(text, 0);
    if r.Some? {
      assert UrlMatchAt(text, r.value);
    }
  }

  /** What `match` returns otherwise: a piece of the text that starts with
      the host, continues with at least one non-whitespace character, ends
      at whitespace or at the end of the text, and starts at the leftmost
      possible position. */
  lemma UrlMatchShape(text: string)
    requires UrlMatch(text).Some?
    ensures var i := UrlMatchFrom(text, 0).value;
      var u := UrlMatch(text).value;
      && i + |u| <= |text| && text[i..i + |u|] == u
      && |u| > |Host| && u[..|Host|] == Host && NoWhitespace(u[|Host|..])
      && (i + |u| == |text| || IsWhitespace(text[i + |u|]))
      && forall j: nat :: j < i ==> !UrlMatchAt(text, j)
  {
    var i := UrlMatchFrom(text, 0).value;
    assert forall j: nat :: j < i ==> !UrlMatchAt(text, j);
    MatchAt(text, i);
  }

  /** When the first occurrence of the host is followed by a non-whitespace
      character, the extracted address is the host there plus the maximal
      run of non-whitespace after it. */
  lemma FirstOccurrenceDecides(text: string, i: nat)
    requires IndexFrom(text, Host, 0) == Some(i)
    requires i + |Host| < |text| && !IsWhitespace(text[i + |Host|])
    ensures UrlMatchFrom(text, 0) == Some(i)
    ensures UrlMatch(text) == Some(Host + NonSpaceRun(text[i + |Host|..]))
  {
    assert UrlMatchAt(text, i);
    var r := UrlMatchFrom(text, 0);
    assert r.Some? && r.value <= i;
    assert OccursAt(text, Host, r.value);
    assert r.value >= i;
  }

  /** Any match starts at an occurrence of the host, so the link test
      `includes` holds whenever `match` succeeds. */
  lemma MatchImpliesIncludes(text: string)
    requires UrlMatch(text).Some?
    ensures Includes(text, Host)
  {
    IncludesIffOccurs(text, Host);
    assert OccursAt(text, Host, UrlMatchFrom(text, 0).value);
  }

  /** What the link block under a message shows. */
  datatype LinkView = NoLink | ImageLink(src: string) | FileLink(href: string)

  /** The render of the link block, or the TypeError it throws. */
  datatype LinkRender = Rendered(view: LinkView) | TypeError

  /** The link block as written: guarded by `includes`, then reading `[0]`
      of the `match` result, which is null when the host is not followed by
      a non-whitespace character — and reading a property of null throws. */
  function RenderLinkAsWritten(text: string): (r: LinkRender)
    ensures r == TypeError <==> Includes(text, Host) && UrlMatch(text).None?
  {
    if !(text != "" && Includes(text, Host)) then Rendered(NoLink)
    else match UrlMatch(text)
      case None => TypeError
      case Some(u) => Rendered(if IsImage(text) then ImageLink(u) else FileLink(u))
  }

  /** A message that names the server without a path makes the render throw. */
  lemma BareHostThrows()
    ensures RenderLinkAsWritten(Host) == TypeError
    ensures RenderLinkAsWritten(Host + " is down") == TypeError
  {
    var t := Host + " is down";
    assert OccursAt(t, Host, 0) by { assert t[..|Host|] == Host; }
    IncludesIffOccurs(t, Host);
    forall j: nat ensures !UrlMatchAt(t, j) {
      if j == 0 {
        assert t[|Host|] == ' ';
      } else if j + |Host| < |t| {
        var rest := "ttp://l";
        assert Host[1..8] == rest;
        assert t[j] == Host[j] == rest[j - 1];
        assert 'h' !in rest;
        assert t[j] != Host[0];
        assert t[j..j + |Host|][0] == t[j];
      }
    }
    assert UrlMatch(Host).None?;
  }

  /** The link block as evidently intended: shown exactly when the address
      can be extracted, never throwing. */
  function LinkBlock(text: string): (v: LinkView)
    ensures v != NoLink <==> UrlMatch(text).Some?
    ensures v != NoLink ==> Includes(text, Host)
    ensures v.ImageLink? <==> UrlMatch(text).Some? && IsImage(text)
  {
    match UrlMatch(text)
    case None => NoLink
    case Some(u) =>
      MatchImpliesIncludes(text);
      if IsImage(text) then ImageLink(u) else FileLink(u)
  }

  /** The corrected block agrees with the written one wherever that one
      renders at all. */
  lemma LinkBlockAgrees(text: string)
    ensures RenderLinkAsWritten(text).Rendered? ==> RenderLinkAsWritten(text).view == LinkBlock(text)
  {
    if UrlMatch(text).Some? { MatchImpliesIncludes(text); }
  }

  /** A shared-file message ends in ")", so the image test never holds for
      it, whatever the file is called: a shared picture is offered as a link,
      never drawn inline. */
  lemma SharedFileNeverImage(name: string, url: string)
    ensures !IsImage(SharedMessage(name, url))
  {
    var s := SharedMessage(name, url);
    assert s[|s| - 1] == ')';
    assert s[|s| - 4..][3] == ')' && AsciiLowerAll(s[|s| - 4..])[3] == ')';
    assert s[|s| - 5..][4] == ')' && AsciiLowerAll(s[|s| - 5..])[4] == ')';
  }

  /** The host's characters that the proof below relies on. */
  lemma HostShape()
    ensures |Host| == 21 && Host[0] == 'h' && NoWhitespace(Host)
  {
  }

  /** No occurrence of the host starts before the address in a shared-file
      message whose file name does not contain the host. */
  lemma NoHostBeforeUrl(name: string, url: string, j: nat)
    requires !Includes(name, Host)
    requires j < |"\U{1F4CE} Shared: "| + |name| + 2
    ensures !OccursAt(SharedMessage(name, url), Host, j)
  {
    var p := "\U{1F4CE} Shared: ";
    var t := SharedMessage(name, url);
    var q := |p| + |name|;
    HostShape();
    assert t[q] == ' ' && t[q + 1] == '(';
    if j + |Host| <= |t| {
      var w := t[j..j + |Host|];
      if j < |p| {
        assert t[j] == p[j];
        if j == 3 {
          assert w[1] == t[4] == 'a';
        } else {
          assert forall k :: 0 <= k < |p| && k != 3 ==> p[k] != 'h';
          assert w[0] == t[j];
        }
      } else if j + |Host| <= q {
        assert w == name[j - |p|..j - |p| + |Host|];
        IncludesIffOccurs(name, Host);
        assert !OccursAt(name, Host, j - |p|);
      } else if j <= q {
        assert w[q - j] == t[q];
        assert !IsWhitespace(Host[q - j]);
      } else {
        assert w[0] == t[q + 1];
      }
    }
  }

  /** A match position with no match before it is the leftmost one. */
  lemma LeftmostMatch(text: string, b: nat)
    requires UrlMatchAt(text, b)
    requires forall j: nat :: j < b ==> !UrlMatchAt(text, j)
    ensures UrlMatchFrom(text, 0) == Some(b)
  {
    var r := UrlMatchFrom(text, 0);
    assert r.Some?;
    assert !(r.value < b);
    assert !(b < r.value);
  }

  /** In a shared-file message the address starts right after " (", and
      what follows the host there is the path and the closing parenthesis. */
  lemma SharedFileLayout(name: string, path: string)
    requires path != ""
    ensures var t := SharedMessage(name, Host + path);
      var b := |"\U{1F4CE} Shared: "| + |name| + 2;
      && b + |Host| < |t|
      && t[b..b + |Host|] == Host
      && t[b + |Host|..] == path + ")"
  {
    var t := SharedMessage(name, Host + path);
    var pre := "\U{1F4CE} Shared: " + name + " (";
    var rest := Host + path + ")";
    assert t == pre + rest;
    SliceOfAppend(pre, rest, 0, |Host|);
    assert rest[0..|Host|] == Host;
    assert t[|pre| + |Host|..] == rest[|Host|..];
  }

  /** The link extracted from a shared-file message, for an address on the
      server (one without whitespace, beyond the bare host) and a file name
      that does not itself contain the host: the address with the closing
      parenthesis of the message attached, offered as a file link. */
  lemma SharedFileHref(name: string, path: string)
    requires path != "" && NoWhitespace(path)
    requires !Includes(name, Host)
    ensures UrlMatch(SharedMessage(name, Host + path)) == Some(Host + path + ")")
    ensures LinkBlock(SharedMessage(name, Host + path)) == FileLink(Host + path + ")")
  {
    var url := Host + path;
    var t := SharedMessage(name, url);
    var b := |"\U{1F4CE} Shared: "| + |name| + 2;
    SharedFileLayout(name, path);
    var tail := t[b + |Host|..];
    assert tail[0] == path[0];
    assert UrlMatchAt(t, b);
    forall j: nat | j < b ensures !UrlMatchAt(t, j) {
      NoHostBeforeUrl(name, url, j);
    }
    LeftmostMatch(t, b);
    assert NoWhitespace(path + ")");
    NonSpaceRunWhole(tail);
    assert UrlMatch(t) == Some(Host + tail);
    assert tail == path + ")";
    assert Host + (path + ")") == url + ")";
    SharedFileNeverImage(name, url);
  }

  // ---------------------------------------------------------------------
  // The send guard

  /** `sendMessage` gets past `if (!socket || !message.trim()) return`
      exactly when a socket exists and the draft holds a non-whitespace
      character. */
  lemma SendGuardIff(hasSocket: bool, draft: string)
    ensures (hasSocket && Trim(draft) != "") <==> (hasSocket && !AllWhitespace(draft))
  {
    TrimEmptyIffAllWhitespace(draft);
  }

  // ---------------------------------------------------------------------
  // Component state

  class ChatRoomView {
    /** The props. */
    const username: string
    var room: string
    /** `socket`: null until the connecting effect has run. */
    var socket: Option<Socket>
    /** The ready state of the current socket. */
    var socketState: ReadyState
    /** How many sockets the component has opened; names the next one. */
    var socketCount: nat
    /** `messages`: every parsed inbound frame, in arrival order. */
    var messages: seq<Json>
    /** `message`: the draft in the input box. */
    var draft: string
    /** `file`: the file chosen for upload. */
    var file: Option<FileRef>
    /** The connecting effect threw (`new WebSocket` refused the address).
        Nothing catches the error, so React removes the whole tree and no
        event reaches the component again. */
    var crashed: bool

    ghost predicate Valid()
      reads this
    {
      && (socket.Some? ==> socket.value.serial < socketCount)
      && (socket.Some? && !crashed ==> socket.value.url == RoomUrl(room))
      && (socket.None? ==> socketState == Connecting)
    }

    /** The first render, before any effect has run. */
    constructor (username: string, room: string)
      ensures Valid()
      ensures this.username == username && this.room == room
      ensures socket == None && socketCount == 0
      ensures messages == [] && draft == "" && file == None && !crashed
    {
      this.username := username;
      this.room := room;
      socket := None;
      socketState := Connecting;
      socketCount := 0;
      messages := [];
      draft := "";
      file := None;
      crashed := false;
    }

    /** The connecting effect after the first render: a socket for the room,
        or a `SyntaxError` when the constructor refuses the room's address. */
    method Mount()
      requires Valid() && !crashed && socket.None?
      modifies this`socket, this`socketState, this`socketCount, this`crashed
      ensures Valid()
      ensures crashed <==> !Constructible(RoomUrl(room))
      ensures !crashed ==>
        && socket == Some(Socket(old(socketCount), RoomUrl(room))) && socketState == Connecting
        && socketCount == old(socketCount) + 1
      ensures crashed ==>
        socket == None && socketState == old(socketState) && socketCount == old(socketCount)
    {
      if !Constructible(RoomUrl(room)) {
        crashed := true;
        return;
      }
      socket := Some(Socket(socketCount, RoomUrl(room)));
      socketState := Connecting;
      socketCount := socketCount + 1;
    }

    /** A new `room` prop. React reruns the effect only when the room
        differs: the cleanup closes the old socket and a socket for the new
        room replaces it. The message log, the draft and the file stay. When
        the constructor refuses the new address, the old socket is closed
        all the same and the effect throws. */
    method ChangeRoom(newRoom: string) returns (closed: Option<Socket>)
      requires Valid() && !crashed && socket.Some?
      modifies this`room, this`socket, this`socketState, this`socketCount, this`crashed
      ensures Valid()
      ensures room == newRoom
      ensures crashed <==> newRoom != old(room) && !Constructible(RoomUrl(newRoom))
      ensures newRoom == old(room) ==>
        closed == None && socket == old(socket) && socketState == old(socketState) && socketCount == old(socketCount)
      ensures newRoom != old(room) && !crashed ==>
        && closed == old(socket)
        && socket == Some(Socket(old(socketCount), RoomUrl(newRoom))) && socketState == Connecting
        && socketCount == old(socketCount) + 1
      ensures crashed ==>
        && closed == old(socket)
        && socket == old(socket) && socketState == AfterClose(old(socketState))
        && socketCount == old(socketCount)
    {
      if newRoom == room {
        closed := None;
      } else {
        closed := socket;
        room := newRoom;
        if !Constructible(RoomUrl(room)) {
          socketState := AfterClose(socketState);
          crashed := true;
          return;
        }
        socket := Some(Socket(socketCount, RoomUrl(room)));
        socketState := Connecting;
        socketCount := socketCount + 1;
      }
    }

    /** The current socket's `open` event (the handler only logs). */
    method SocketOpened()
      requires Valid() && !crashed && socket.Some? && socketState == Connecting
      modifies this`socketState
      ensures Valid()
      ensures socketState == Open
    {
      socketState := Open;
    }

    /** The current socket's `close` event, or a failure that closes it
        (the handler only logs). */
    method SocketClosed()
      requires Valid() && !crashed && socket.Some?
      modifies this`socketState
      ensures Valid()
      ensures socketState == Closed
    {
      socketState := Closed;
    }

    /** `onmessage`: a frame that parses (`parsed`) is appended to the log;
        one that does not is reported and dropped. The browser dispatches
        `message` only on an OPEN socket. */
    method OnMessage(parsed: Option<Json>)
      requires Valid() && !crashed && socket.Some? && socketState == Open
      modifies this`messages
      ensures Valid()
      ensures parsed.Some? ==> messages == old(messages) + [parsed.value]
      ensures parsed.None? ==> messages == old(messages)
    {
      if parsed.Some? {
        messages := messages + [parsed.value];
      }
    }

    /** Typing in the input box. */
    method EditDraft(text: string)
      requires !crashed
      modifies this`draft
      ensures draft == text
    {
      draft := text;
    }

    /** `handleFileChange`: the first chosen file, or none. */
    method ChooseFile(chosen: Option<FileRef>)
      requires !crashed
      modifies this`file
      ensures file == chosen
    {
      file := chosen;
    }

    /** `sendMessage`: with a socket and a draft that is not blank, send the
        untrimmed draft under the user's name and clear the input. Nothing
        is sent and the draft is kept when there is no socket, when the
        draft is blank, or when `send` throws on a socket still connecting. */
    method SendMessage() returns (out: Option<Transmission>)
      requires !crashed
      modifies this`draft
      ensures out.Some? <==> socket.Some? && !AllWhitespace(old(draft)) && SendAccepted(socketState)
      ensures out.Some? ==>
        out.value == Transmission(socket.value, OutgoingFrame(username, old(draft))) && draft == ""
      ensures out.None? ==> draft == old(draft)
    {
      SendGuardIff(socket.Some?, draft);
      if socket.None? || Trim(draft) == "" {
        return None;
      }
      var frame := OutgoingFrame(username, draft);
      if !SendAccepted(socketState) {
        return None;
      }
      out := Some(Transmission(socket.value, frame));
      draft := "";
    }

    /** `sendFile`: with no file, nothing happens. Otherwise the file is
        posted with the room and the user's name; on success the shared-file
        message is sent and the file cleared. A failed upload — and a `send`
        that throws inside the same `try`, including on a missing socket —
        sends nothing and keeps the file. */
    method SendFile(outcome: UploadOutcome) returns (request: Option<UploadRequest>, out: Option<Transmission>)
      requires !crashed
      modifies this`file
      ensures old(file).None? ==> request == None && out == None && file == None
      ensures old(file).Some? ==> request == Some(UploadRequest(old(file).value, room, username))
      ensures out.Some? <==>
        old(file).Some? && outcome.Uploaded? && socket.Some? && SendAccepted(socketState)
      ensures out.Some? ==>
        && out.value == Transmission(socket.value,
             OutgoingFrame(username, SharedMessage(old(file).value.name, outcome.fileUrl)))
        && file == None
      ensures out.None? ==> file == old(file)
    {
      if file.None? {
        return None, None;
      }
      var f := file.value;
      request := Some(UploadRequest(f, room, username));
      match outcome
      case UploadFailed =>
        out := None;
      case Uploaded(fileUrl) =>
        if socket.None? || !SendAccepted(socketState) {
          out := None;
        } else {
          out := Some(Transmission(socket.value, OutgoingFrame(username, SharedMessage(f.name, fileUrl))));
          file := None;
        }
    }

    /** The send button: it uploads when a file is chosen and sends the
        draft otherwise. */
    method PressSend(outcome: UploadOutcome) returns (request: Option<UploadRequest>, out: Option<Transmission>)
      requires !crashed
      modifies this`draft, this`file
      // A chosen file: the upload, and the draft stays.
      ensures old(file).Some? ==> request == Some(UploadRequest(old(file).value, room, username))
      ensures old(file).Some? ==> draft == old(draft)
      ensures old(file).Some? ==>
        (out.Some? <==> outcome.Uploaded? && socket.Some? && SendAccepted(socketState))
      ensures out.Some? && old(file).Some? ==>
        && outcome.Uploaded?
        && out.value == Transmission(socket.value,
             OutgoingFrame(username, SharedMessage(old(file).value.name, outcome.fileUrl)))
        && file == None
      ensures out.None? && old(file).Some? ==> file == old(file)
      // No file: the draft, and no upload.
      ensures old(file).None? ==> request == None && file == None
      ensures old(file).None? ==>
        (out.Some? <==> socket.Some? && !AllWhitespace(old(draft)) && SendAccepted(socketState))
      ensures out.Some? && old(file).None? ==>
        out.value == Transmission(socket.value, OutgoingFrame(username, old(draft))) && draft == ""
      ensures out.None? && old(file).None? ==> draft == old(draft)
    {
      if file.Some? {
        request, out := SendFile(outcome);
      } else {
        request := None;
        out := SendMessage();
      }
    }
  }
}
