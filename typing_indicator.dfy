/** The typing indicator (studyroom-frontend/src/components/TypingIndicator.jsx):
    the text it shows for a list of user names. The animated dots are
    markup and are not modelled. */
module TypingIndicator {
  import opened Wrappers
  import opened JsString

  /** The text shown for `users`, or None where the component renders nothing. */
  function Label(users: seq<string>): (r: Option<string>)
    ensures r.None? <==> users == []
    ensures users != [] ==>
      r == Some(Join(users, ", ") + if |users| == 1 then " is typing..." else " are typing...")
  {
    if |users| == 0 then None
    else if |users| == 1 then Some(users[0] + " is typing...")
    else Some(Join(users, ", ") + " are typing...")
  }

  /** The component with its default: a missing `users` prop is the empty
      list. */
  function Indicator(users: Option<seq<string>>): (r: Option<string>)
    ensures r.Some? <==> users.Some? && users.value != []
  {
    Label(users.GetOr([]))
  }

  /** Every name appears in the text, in input order, each `", "` apart,
      and the text ends right after the last name with the verb phrase. */
  lemma {:induction false} NamesInOrder(users: seq<string>, i: nat)
    requires i < |users|
    ensures var shown := Label(users).value;
      var at := JoinOffset(users, ", ", i);
      var phrase := if |users| == 1 then " is typing..." else " are typing...";
      && at + |users[i]| <= |shown|
      && shown[at..at + |users[i]|] == users[i]
      && (i + 1 < |users| ==>
           && JoinOffset(users, ", ", i + 1) <= |shown|
           && shown[at + |users[i]|..JoinOffset(users, ", ", i + 1)] == ", ")
      && shown[|shown| - |phrase|..] == phrase
      && |shown| == JoinOffset(users, ", ", |users| - 1) + |users[|users| - 1]| + |phrase|
  {
    var phrase := if |users| == 1 then " is typing..." else " are typing...";
    var joined := Join(users, ", ");
    JoinLayout(users, ", ", i);
    JoinLength(users, ", ");
    var at := JoinOffset(users, ", ", i);
    assert (joined + phrase)[at..at + |users[i]|] == joined[at..at + |users[i]|];
    if i + 1 < |users| {
      assert (joined + phrase)[at + |users[i]|..JoinOffset(users, ", ", i + 1)]
          == joined[at + |users[i]|..JoinOffset(users, ", ", i + 1)];
    }
    assert (joined + phrase)[|joined|..] == phrase;
  }
}
