/** The application shell (studyroom-frontend/src/App.jsx): the join form's
    validation and the one-way `joined` gate in front of the chat room. */
module App {
  import opened Wrappers
  import opened JsString

  /** Why `joinRoom` refuses. */
  datatype JoinError = UsernameTooShort | RoomMissing

  /** The checks of `joinRoom`, in their order: the trimmed username must be
      at least three UTF-16 code units long (JavaScript's `length`), then the
      trimmed room must not be empty. */
  function CheckJoin(username: string, room: string): (r: Option<JoinError>)
    ensures r == Some(UsernameTooShort) <==> Utf16Length(Trim(username)) < 3
    ensures r == Some(RoomMissing) <==> Utf16Length(Trim(username)) >= 3 && AllWhitespace(room)
    ensures r == None <==> Utf16Length(Trim(username)) >= 3 && !AllWhitespace(room)
  {
    TrimEmptyIffAllWhitespace(room);
    if Utf16Length(Trim(username)) < 3 then Some(UsernameTooShort)
    else if Trim(room) == "" then Some(RoomMissing)
    else None
  }

  /** The alert shown for each refusal. */
  function AlertText(e: JoinError): (r: string)
    ensures r != ""
    ensures e.RoomMissing? <==> r != "Username must be at least 3 characters!"
  {
    match e
    case UsernameTooShort => "Username must be at least 3 characters!"
    case RoomMissing => "Please enter a room name"
  }

  /** Surrounding whitespace does not count towards the three characters. */
  lemma PaddedShortNameRejected()
    ensures CheckJoin("  ab  ", "math") == Some(UsernameTooShort)
  {
    var s0, s1, s2 := "  ab  ", " ab  ", "ab  ";
    assert s0[0] == ' ' && s0[1..] == s1;
    assert s1[0] == ' ' && s1[1..] == s2;
    assert !IsWhitespace(s2[0]);
    assert TrimStart(s2) == s2;
    assert TrimStart(s1) == s2;
    assert TrimStart(s0) == s2;
    assert "ab  "[..3] == "ab " && "ab "[..2] == "ab";
    assert TrimEnd("ab") == "ab";
    assert TrimEnd("ab  ") == "ab";
  }

  /** Two emoji are four UTF-16 code units, so they pass the length check. */
  lemma TwoEmojiNameAccepted()
    ensures CheckJoin("\U{1F600}\U{1F600}", "math") == None
  {
    var u := "\U{1F600}\U{1F600}";
    assert !IsWhitespace(u[0]) && !IsWhitespace(u[|u| - 1]);
    assert Trim(u) == u by {
      assert TrimStart(u) == u;
      assert TrimEnd(u) == u;
    }
    assert u[1..] == "\U{1F600}" && u[1..][1..] == "";
    assert Utf16Length(u) == 4;
    assert !IsWhitespace("math"[0]);
  }

  /** What the app renders. */
  datatype Screen =
    | JoinForm
      /** `<SocketProvider><ChatRoom username room/></SocketProvider>`: the
          provider is given no room. */
    | InRoom(providerRoom: Option<string>, username: string, room: string)

  class AppState {
    var username: string
    var room: string
    var joined: bool

    /** Once joined, the form's fields passed the checks; they can no longer
        be edited, because the form is gone. */
    ghost predicate Valid()
      reads this
    {
      joined ==> CheckJoin(username, room) == None
    }

    constructor ()
      ensures Valid() && username == "" && room == "" && !joined
    {
      username, room, joined := "", "", false;
    }

    /** Typing in the username field, which exists only before joining. */
    method EditUsername(text: string)
      requires Valid() && !joined
      modifies this`username
      ensures Valid() && username == text
    {
      username := text;
    }

    /** Typing in the room field, which exists only before joining. */
    method EditRoom(text: string)
      requires Valid() && !joined
      modifies this`room
      ensures Valid() && room == text
    {
      room := text;
    }

    /** `joinRoom`: alert and stay on the form when a check fails, otherwise
        set `joined`. Nothing ever clears it. */
    method JoinRoom() returns (alert: Option<string>)
      requires Valid()
      modifies this`joined
      ensures Valid()
      ensures alert == match CheckJoin(username, room)
                       case None => None
                       case Some(e) => Some(AlertText(e))
      ensures joined == (old(joined) || CheckJoin(username, room) == None)
    {
      var check := CheckJoin(username, room);
      if check.Some? {
        return Some(AlertText(check.value));
      }
      alert := None;
      joined := true;
    }

    /** The render: the form until joined, then the chat room, which gets
        the fields exactly as typed (untrimmed), and a provider without a
        room. */
    function View(): (s: Screen)
      reads this
      requires Valid()
      ensures s.JoinForm? <==> !joined
      ensures s.InRoom? ==>
        && s.providerRoom == None
        && s.username == username && s.room == room
        && Utf16Length(Trim(s.username)) >= 3 && !AllWhitespace(s.room)
    {
      if joined then InRoom(None, username, room) else JoinForm
    }
  }
}
