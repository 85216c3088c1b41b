/** The two halves together: what the browser sends, what the server makes
    of it and broadcasts, and how the browser then draws the broadcast. */
module EndToEnd {
  import opened Wrappers
  import opened JsonValue
  import opened JsString
  import S = ChatServer
  import C = ChatRoom
  import A = App

  /** The broadcast record the server makes of a frame the client sent.
      `printed` is the frame's text on the wire (the stringified object);
      the server reads it only when parsing fails, so it does not reach
      the record. */
  function Echo(username: string, text: string, now: string, printed: string): (j: Json)
    ensures j.JObject? && j.fields.Keys == {"type", "username", "message", "timestamp"}
    ensures j.fields["type"] == JString("chat")
    ensures j.fields["username"] == JString(username)
    ensures j.fields["message"] == JString(text)
  {
    var frame := S.Frame(printed, Some(C.OutgoingFrame(username, text)));
    S.Encode(S.Normalise(frame, now))
  }

  /** The sender sees their own message as their own, and every other
      participant sees the sender's name above it unless that name is empty. */
  lemma EchoAttribution(username: string, text: string, now: string, printed: string, viewer: string)
    ensures C.IsOwn(Echo(username, text, now, printed), username)
    ensures C.ShowsAuthor(Echo(username, text, now, printed), viewer) <==> username != "" && viewer != username
  {
  }

  /** Text that was not JSON is relayed as "Anonymous": it is drawn as the
      viewer's own exactly when the viewer's name is "Anonymous", and is
      labelled "Anonymous" for everyone else. */
  lemma UnparsedTextAttribution(raw: string, now: string, viewer: string)
    ensures var j := S.Encode(S.Normalise(S.Frame(raw, None), now));
      && (C.IsOwn(j, viewer) <==> viewer == "Anonymous")
      && (C.ShowsAuthor(j, viewer) <==> viewer != "Anonymous")
      && j.fields["message"] == JString(raw)
  {
  }

  /** Join and leave notices carry no user name: they are never anyone's
      own and never labelled. */
  lemma NoticesUnattributed(room: string, now: string, viewer: string)
    ensures !C.IsOwn(S.Encode(S.JoinNotice(room, now)), viewer)
    ensures !C.ShowsAuthor(S.Encode(S.JoinNotice(room, now)), viewer)
    ensures !C.IsOwn(S.Encode(S.LeaveNotice(room, now)), viewer)
    ensures !C.ShowsAuthor(S.Encode(S.LeaveNotice(room, now)), viewer)
  {
  }

  /** A shared file comes back to every participant with a file link whose
      address keeps the message's closing parenthesis, and never as an
      inline image. */
  lemma SharedFileEcho(username: string, name: string, path: string, now: string, printed: string)
    requires path != "" && NoWhitespace(path)
    requires !Includes(name, C.Host)
    ensures var j := Echo(username, C.SharedMessage(name, C.Host + path), now, printed);
      && j.fields["message"].JString?
      && C.LinkBlock(j.fields["message"].s) == C.FileLink(C.Host + path + ")")
  {
    C.SharedFileHref(name, path);
  }

  /** The room "C#" passes the join checks: "alice" is five code units and
      the room is not blank. */
  lemma HashRoomAccepted()
    ensures A.CheckJoin("alice", "C#") == None
  {
    var u := "alice";
    assert !IsWhitespace(u[0]) && !IsWhitespace(u[|u| - 1]);
    assert Trim(u) == u by {
      assert TrimStart(u) == u;
      assert TrimEnd(u) == u;
    }
    assert Utf16Length(u) == 5;
    assert !IsWhitespace("C#"[0]);
  }

  /** A room that passes the join checks still crashes the client. The app
      hands the chat room the room as typed (`App.AppState.View`), and the
      chat room's connecting effect gives `new WebSocket` an address with a
      fragment; the `SyntaxError` escapes. */
  method HashRoomCrashes() returns (accepted: bool, crashed: bool)
    ensures accepted && crashed
  {
    HashRoomAccepted();
    accepted := A.CheckJoin("alice", "C#") == None;
    var view := new C.ChatRoomView("alice", "C#");
    assert "C#"[1] == '#';
    view.Mount();
    crashed := view.crashed;
  }
}
