/**
  The home page's own state: the key that restarts the conversation and the
  title handed to the header, which a new chat resets and the first user
  message sets to its first five space-separated words.
 */
module Page {
  import opened Common
  import Header
  import Chat

  /** The page state: `resetKey` (initially 0) and `headerTitle` (initially the application name). */
  datatype PageState = PageState(resetKey: int, headerTitle: Option<string>)

  /** The state when the page mounts. */
  const Initial: PageState := PageState(0, Some(Header.AppName))

  /** The number of spaces in `s`. */
  function Spaces(s: string): nat {
    if s == [] then 0 else (if s[0] == ' ' then 1 else 0) + Spaces(s[1..])
  }

  /** Spaces add up over a concatenation. */
  lemma {:induction false} SpacesAppend(a: string, b: string)
    ensures Spaces(a + b) == Spaces(a) + Spaces(b)
  {
    if a == [] {
      assert a + b == b;
    } else {
      assert (a + b)[0] == a[0] && (a + b)[1..] == a[1..] + b;
      SpacesAppend(a[1..], b);
    }
  }

  /** `s.split(' ')`: the pieces between spaces, an empty piece where two spaces meet or at an end. */
  function Split(s: string): (r: seq<string>)
    ensures |r| > 0
  {
    if s == [] then [""]
    else
      var rest := Split(s[1..]);
      if s[0] == ' ' then [""] + rest else [[s[0]] + rest[0]] + rest[1..]
  }

  /** `parts.join(' ')`. */
  function Join(parts: seq<string>): string {
    if parts == [] then ""
    else if |parts| == 1 then parts[0]
    else parts[0] + " " + Join(parts[1..])
  }

  /** Prepending a character to the first piece prepends it to the joined string. */
  lemma JoinConsHead(c: char, parts: seq<string>)
    requires parts != []
    ensures Join([[c] + parts[0]] + parts[1..]) == [c] + Join(parts)
  {
    var q := [[c] + parts[0]] + parts[1..];
    assert q[1..] == parts[1..];
  }

  /**
    Splitting and joining again gives back the string; there is one more piece
    than there are spaces, and no piece contains a space.
   */
  lemma {:induction false} SplitJoin(s: string)
    ensures Join(Split(s)) == s
    ensures |Split(s)| == Spaces(s) + 1
    ensures forall i :: 0 <= i < |Split(s)| ==> Spaces(Split(s)[i]) == 0
  {
    if s != [] {
      var rest := Split(s[1..]);
      SplitJoin(s[1..]);
      if s[0] == ' ' {
        assert ([""] + rest)[1..] == rest;
        assert s == " " + s[1..];
      } else {
        JoinConsHead(s[0], rest);
        assert s == [s[0]] + s[1..];
        var r := Split(s);
        assert r[0] == [s[0]] + rest[0];
        assert forall i :: 1 <= i < |r| ==> r[i] == rest[i];
      }
    }
  }

  /** Joining the first `n` pieces gives the part of the joined string before the `n`-th separator. */
  lemma {:induction false} JoinTake(parts: seq<string>, n: nat)
    requires 1 <= n <= |parts|
    ensures Join(parts) == Join(parts[..n]) + (if n < |parts| then " " + Join(parts[n..]) else "")
  {
    if n == |parts| {
      assert parts[..n] == parts;
    } else if n == 1 {
      assert parts[..1] == [parts[0]];
    } else {
      JoinTake(parts[1..], n - 1);
      assert parts[..n][1..] == parts[1..][..n - 1];
      assert parts[1..][n - 1..] == parts[n..];
    }
  }

  /** Joining `k` space-free pieces puts exactly `k - 1` spaces in the result. */
  lemma {:induction false} JoinSpaces(parts: seq<string>)
    requires parts != []
    requires forall i :: 0 <= i < |parts| ==> Spaces(parts[i]) == 0
    ensures Spaces(Join(parts)) == |parts| - 1
  {
    if |parts| > 1 {
      JoinSpaces(parts[1..]);
      SpacesAppend(parts[0], " ");
      SpacesAppend(parts[0] + " ", Join(parts[1..]));
    }
  }

  /** `firstUserMessage.split(' ').slice(0, 5).join(' ')`. */
  function FirstWords(message: string): string {
    Join(Take(Split(message), 5))
  }

  /** `title.length > 0 ? title : "Chat"`. */
  function ChatTitle(message: string): (r: string)
    ensures r != ""
  {
    var title := FirstWords(message);
    if |title| > 0 then title else "Chat"
  }

  /**
    The first five words are the message up to (not including) its fifth
    space: a prefix of the message with at most four spaces, the whole
    message when it has at most four, and otherwise followed in the message
    by a space.
   */
  lemma FirstWordsSpec(message: string)
    ensures var t := FirstWords(message);
      && |t| <= |message| && t == message[..|t|]
      && Spaces(t) == (if Spaces(message) < 4 then Spaces(message) else 4)
      && (Spaces(message) <= 4 ==> t == message)
      && (Spaces(message) > 4 ==> |t| < |message| && message[|t|] == ' ')
  {
    var parts := Split(message);
    SplitJoin(message);
    var n := if |parts| < 5 then |parts| else 5;
    assert Take(parts, 5) == parts[..n];
    JoinTake(parts, n);
    JoinSpaces(parts[..n]);
    var t := FirstWords(message);
    if n < |parts| {
      assert message == t + (" " + Join(parts[n..]));
      assert message[..|t|] == t;
    } else {
      assert parts[..n] == parts;
    }
  }

  /** The first five words are empty exactly for the empty message, so "Chat" stands in only then. */
  lemma FirstWordsEmptyIff(message: string)
    ensures FirstWords(message) == "" <==> message == ""
    ensures message == "" ==> ChatTitle(message) == "Chat"
    ensures message != "" ==> ChatTitle(message) == FirstWords(message)
  {
    FirstWordsSpec(message);
  }

  /** `handleChatStart`: the header title becomes the message's first five words, or "Chat". */
  function ChatStart(p: PageState, message: string): (r: PageState)
    ensures r.resetKey == p.resetKey && r.headerTitle == Some(ChatTitle(message))
  {
    p.(headerTitle := Some(ChatTitle(message)))
  }

  /** `handleNewChat`: the key goes up by one and the title goes back to the application name. */
  function NewChat(p: PageState): (r: PageState)
    ensures r.resetKey == p.resetKey + 1 && r.headerTitle == Some(Header.AppName)
  {
    PageState(p.resetKey + 1, Some(Header.AppName))
  }

  /**
    The key never goes below zero, so the key a new chat hands down is
    positive and the conversation it reaches is reset, while the initial key
    leaves a mounted conversation alone; afterwards the header shows the
    application name.
   */
  lemma NewChatResets(p: PageState, st: Chat.ChatState)
    requires p.resetKey >= 0
    ensures var r := Chat.Reset(st, Some(NewChat(p).resetKey));
      && r.messages == [] && r.inputValue == "" && !r.isLoading && r.error.None? && r.showWelcome
    ensures Chat.Reset(st, Some(Initial.resetKey)) == st
    ensures Header.HeaderText(NewChat(p).headerTitle) == Header.AppName
  {
  }

  /**
    After the first message, a header title of at most 30 characters is the
    message itself when it has at most four spaces and fits; a longer title
    still starts with the message's first 27 characters.
   */
  lemma HeaderAfterChatStart(p: PageState, message: string)
    ensures var h := Header.HeaderText(ChatStart(p, message).headerTitle);
      && (message != "" && Spaces(message) <= 4 && |message| <= Header.MaxTitle ==> h == message)
      && (message == "" ==> h == "Chat")
      && (|FirstWords(message)| > Header.MaxTitle ==> |message| > 27 && h[..27] == message[..27])
  {
    FirstWordsSpec(message);
    FirstWordsEmptyIff(message);
    var t := FirstWords(message);
    var title := ChatTitle(message);
    assert Header.HeaderText(ChatStart(p, message).headerTitle) == Header.Truncate(title);
    if |t| > Header.MaxTitle {
      assert title == t;
      assert message[..27] == t[..27];
    }
  }
}
