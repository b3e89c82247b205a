/**
  The chat panel's state machine (`ChatInterface`): submitting a message, the
  history forwarded to the flow, folding the streamed reply into one model
  message, the error path, the reset triggered by a new `resetKey`, and the
  suggestion chips. React's asynchronous state updates are modelled as the
  sequence of functional updates the handler issues, applied in order.
 */
module Chat {
  import opened Common
  import opened Prompt

  /** One chat message; `imageDataUri` is only set on user messages that carried an image. */
  datatype Message = Message(id: string, role: Role, content: string, imageDataUri: Option<string>)

  /**
    The component state: `imagePreview` is the data URI read from the selected
    file and `hasImageFile` whether a file is selected; the two are set at
    different times, and the source consults both.
   */
  datatype ChatState = ChatState(
    messages: seq<Message>,
    inputValue: string,
    isLoading: bool,
    error: Option<string>,
    showWelcome: bool,
    imagePreview: Option<string>,
    hasImageFile: bool)

  /** The fixed prompt suggestions. */
  const PromptSuggestions: seq<string> := [
    "Create a flying pig",
    "Explain behavior packs",
    "How to add custom sounds?",
    "Generate a simple sword item"
  ]

  /** How `handleSubmit` was invoked: by the form (reads `inputValue`) or with a suggestion's text. */
  datatype Submission = FromForm | FromSuggestion(text: string)

  /** What a failed call threw: an `Error` with a message, or some other value. */
  datatype Thrown = ErrorObject(message: string) | OtherValue

  /**
    How the call to the flow went: it threw before a stream was returned, or a
    stream delivered `chunks` (already decoded) and then either ended or threw.
   */
  datatype Outcome = SetupFailure(thrown: Thrown) | Streamed(chunks: seq<string>, failure: Option<Thrown>)

  /** The text being submitted. */
  function SubmittedText(st: ChatState, sub: Submission): string {
    if sub.FromForm? then st.inputValue else sub.text
  }

  /** The guard of `handleSubmit`: some non-blank text, or a selected image file. */
  predicate Accepts(st: ChatState, text: string) {
    !IsBlank(text) || st.hasImageFile
  }

  /** The guard is the source's `text.trim() || imageFile`: trimming leaves something exactly when the text is not blank. */
  lemma AcceptsIffTrimmed(st: ChatState, text: string)
    ensures Accepts(st, text) <==> Trim(text) != "" || st.hasImageFile
  {
    TrimEmptyIffBlank(text);
  }

  /** The new user message: the submitted text, and the preview when it is truthy. */
  function UserMessage(id: string, text: string, preview: Option<string>): (m: Message)
    ensures m.role == User && m.content == text
    ensures m.imageDataUri.Some? <==> Truthy(preview)
    ensures m.imageDataUri.Some? ==> m.imageDataUri == preview
  {
    Message(id, User, text, if Truthy(preview) then preview else None)
  }

  /**
    The synchronous part of `handleSubmit`: a rejected submission changes
    nothing; an accepted one hides the welcome screen, appends exactly one user
    message, clears the input (form submissions only), sets loading, clears the
    error and the image selection.
   */
  function BeginSubmit(st: ChatState, sub: Submission, userId: string): (r: ChatState)
    ensures !Accepts(st, SubmittedText(st, sub)) ==> r == st
    ensures Accepts(st, SubmittedText(st, sub)) ==>
      && |r.messages| == |st.messages| + 1
      && r.messages[..|st.messages|] == st.messages
      && r.messages[|st.messages|] == UserMessage(userId, SubmittedText(st, sub), st.imagePreview)
      && r.isLoading && r.error.None? && !r.showWelcome
      && r.imagePreview.None? && !r.hasImageFile
      && r.inputValue == (if sub.FromForm? then "" else st.inputValue)
  {
    var text := SubmittedText(st, sub);
    if !Accepts(st, text) then st
    else
      st.(
        showWelcome := false,
        messages := st.messages + [UserMessage(userId, text, st.imagePreview)],
        inputValue := if sub.FromForm? then "" else st.inputValue,
        isLoading := true,
        error := None,
        imagePreview := None,
        hasImageFile := false)
  }

  /** The history entry a message becomes: its role and its content as the only part. */
  function ToHistory(m: Message): HistoryMessage {
    HistoryMessage(m.role, [TextPart(m.content)])
  }

  /** `messages.filter(msg => msg.id !== userId).map(...)`, over the messages before the submission. */
  function HistoryForAI(messages: seq<Message>, userId: string): (r: seq<HistoryMessage>)
    ensures |r| <= |messages|
  {
    if messages == [] then []
    else if messages[0].id != userId then [ToHistory(messages[0])] + HistoryForAI(messages[1..], userId)
    else HistoryForAI(messages[1..], userId)
  }

  /** No message carries the identifier `id`. */
  predicate FreshId(messages: seq<Message>, id: string) {
    forall i :: 0 <= i < |messages| ==> messages[i].id != id
  }

  /**
    With a fresh user id the history is the prior message list, in order, each
    mapped to its role and a single text part; images are not forwarded.
   */
  lemma {:induction false} HistoryIsPriorMessages(messages: seq<Message>, userId: string)
    requires FreshId(messages, userId)
    ensures |HistoryForAI(messages, userId)| == |messages|
    ensures forall i :: 0 <= i < |messages| ==>
      HistoryForAI(messages, userId)[i] == HistoryMessage(messages[i].role, [TextPart(messages[i].content)])
  {
    if messages != [] {
      HistoryIsPriorMessages(messages[1..], userId);
      assert messages[0].id != userId;
      var h := HistoryForAI(messages, userId);
      assert forall i :: 1 <= i < |messages| ==> h[i] == HistoryForAI(messages[1..], userId)[i - 1];
    }
  }

  /** The `ChatInput` sent to the flow. */
  function RequestFor(st: ChatState, sub: Submission, userId: string): (input: ChatInput)
    ensures input.history == Some(HistoryForAI(st.messages, userId)) && input.message == SubmittedText(st, sub)
    ensures input.imageDataUri.Some? <==> Truthy(st.imagePreview)
    ensures input.imageDataUri.Some? ==> input.imageDataUri == st.imagePreview
  {
    ChatInput(
      Some(HistoryForAI(st.messages, userId)),
      SubmittedText(st, sub),
      if Truthy(st.imagePreview) then st.imagePreview else None)
  }

  /** Each prior message contributes exactly one part to the prompt the flow assembles. */
  lemma PromptSizeForSubmission(st: ChatState, sub: Submission, userId: string)
    requires FreshId(st.messages, userId)
    ensures |BuildPrompt(RequestFor(st, sub, userId))| == |st.messages| + (if Truthy(st.imagePreview) then 4 else 2)
  {
    var h := HistoryForAI(st.messages, userId);
    HistoryIsPriorMessages(st.messages, userId);
    OnePartEach(h);
  }

  /** History entries built from messages have exactly one part each. */
  lemma {:induction false} OnePartEach(h: seq<HistoryMessage>)
    requires forall i :: 0 <= i < |h| ==> |h[i].parts| == 1
    ensures PartCount(h) == |h|
  {
    if h != [] {
      OnePartEach(h[1..]);
    }
  }

  /** The placeholder model message appended once the stream is returned; loading ends. */
  function OpenModelMessage(st: ChatState, aiId: string): (r: ChatState)
    ensures r.messages == st.messages + [Message(aiId, Model, "", None)] && !r.isLoading
    ensures r == st.(messages := r.messages, isLoading := false)
  {
    st.(messages := st.messages + [Message(aiId, Model, "", None)], isLoading := false)
  }

  /** One streamed update: the message(s) with id `aiId` get `content := streamed`; all others are unchanged. */
  function ApplyChunk(messages: seq<Message>, aiId: string, streamed: string): (r: seq<Message>)
    ensures |r| == |messages|
    ensures forall i :: 0 <= i < |messages| && messages[i].id != aiId ==> r[i] == messages[i]
    ensures forall i :: 0 <= i < |messages| && messages[i].id == aiId ==> r[i] == messages[i].(content := streamed)
  {
    seq(|messages|, i requires 0 <= i < |messages| =>
      if messages[i].id == aiId then messages[i].(content := streamed) else messages[i])
  }

  /** The read loop: `streamed` accumulates the chunks, and each chunk publishes the text so far. */
  function StreamChunks(st: ChatState, aiId: string, streamed: string, chunks: seq<string>): (r: ChatState)
    decreases |chunks|
    ensures r == st.(messages := r.messages) && |r.messages| == |st.messages|
  {
    if chunks == [] then st
    else
      var next := streamed + chunks[0];
      StreamChunks(st.(messages := ApplyChunk(st.messages, aiId, next)), aiId, next, chunks[1..])
  }

  /**
    After the chunks are read, the message with id `aiId` holds everything
    streamed so far, every other message is unchanged, and nothing but the
    message list changes.
   */
  lemma {:induction false} StreamedContent(st: ChatState, aiId: string, streamed: string, chunks: seq<string>)
    requires chunks != []
    decreases |chunks|
    ensures var r := StreamChunks(st, aiId, streamed, chunks);
      && r == st.(messages := r.messages)
      && |r.messages| == |st.messages|
      && (forall i :: 0 <= i < |st.messages| && st.messages[i].id != aiId ==> r.messages[i] == st.messages[i])
      && (forall i :: 0 <= i < |st.messages| && st.messages[i].id == aiId ==>
            r.messages[i] == st.messages[i].(content := streamed + Concat(chunks)))
  {
    var next := streamed + chunks[0];
    var st1 := st.(messages := ApplyChunk(st.messages, aiId, next));
    if chunks[1..] == [] {
      assert Concat(chunks) == chunks[0];
    } else {
      StreamedContent(st1, aiId, next, chunks[1..]);
      assert streamed + Concat(chunks) == next + Concat(chunks[1..]);
    }
  }

  /**
    After the first `k` chunks of a reply, the model message holds exactly the
    concatenation of those `k` chunks.
   */
  lemma ContentAfterChunks(st: ChatState, aiId: string, chunks: seq<string>, k: nat)
    requires 0 < k <= |chunks|
    ensures var r := StreamChunks(OpenModelMessage(st, aiId), aiId, "", chunks[..k]);
      |r.messages| == |st.messages| + 1 && r.messages[|st.messages|] == Message(aiId, Model, Concat(chunks[..k]), None)
  {
    StreamedContent(OpenModelMessage(st, aiId), aiId, "", chunks[..k]);
  }

  /** The text of a thrown value: an `Error`'s message, or the fixed fallback. */
  function ErrorText(e: Thrown): string {
    if e.ErrorObject? then e.message else "An unknown error occurred."
  }

  /** The `catch` block: loading ends, the error is set, and one apology message is appended. */
  function Fail(st: ChatState, errId: string, e: Thrown): (r: ChatState)
    ensures r.messages == st.messages + [Message(errId, Model, "Sorry, I encountered an error: " + ErrorText(e), None)]
    ensures r.error == Some("Failed to get response: " + ErrorText(e)) && !r.isLoading
    ensures r == st.(messages := r.messages, error := r.error, isLoading := false)
  {
    st.(
      isLoading := false,
      error := Some("Failed to get response: " + ErrorText(e)),
      messages := st.messages + [Message(errId, Model, "Sorry, I encountered an error: " + ErrorText(e), None)])
  }

  /**
    A whole submission: the guard, the user message, and the outcome of the
    call. `userId`, `aiId` and `errId` stand for the `Date.now()`-based ids.
   */
  function Submit(st: ChatState, sub: Submission, userId: string, aiId: string, errId: string, outcome: Outcome): (r: ChatState)
    ensures !Accepts(st, SubmittedText(st, sub)) ==> r == st
  {
    var st1 := BeginSubmit(st, sub, userId);
    if !Accepts(st, SubmittedText(st, sub)) then st
    else
      match outcome
      case SetupFailure(e) => Fail(st1, errId, e)
      case Streamed(chunks, failure) =>
        var st2 := StreamChunks(OpenModelMessage(st1, aiId), aiId, "", chunks);
        if failure.Some? then Fail(st2, errId, failure.value) else st2
  }

  /** The messages an accepted submission leaves behind, for each outcome. */
  function ExpectedMessages(st: ChatState, sub: Submission, userId: string, aiId: string, errId: string, outcome: Outcome): seq<Message> {
    var user := UserMessage(userId, SubmittedText(st, sub), st.imagePreview);
    match outcome
    case SetupFailure(e) =>
      st.messages + [user, Message(errId, Model, "Sorry, I encountered an error: " + ErrorText(e), None)]
    case Streamed(chunks, failure) =>
      st.messages + [user, Message(aiId, Model, Concat(chunks), None)]
        + (if failure.Some? then [Message(errId, Model, "Sorry, I encountered an error: " + ErrorText(failure.value), None)] else [])
  }

  /**
    An accepted submission with a fresh model-message id appends the user
    message, then exactly one model message holding the whole streamed text
    (kept even when the stream fails part-way), then, on failure, one apology
    message; loading is over, and `error` is set exactly when the call failed.
   */
  lemma SubmitOutcome(st: ChatState, sub: Submission, userId: string, aiId: string, errId: string, outcome: Outcome)
    requires Accepts(st, SubmittedText(st, sub))
    requires FreshId(st.messages, aiId) && aiId != userId
    ensures var r := Submit(st, sub, userId, aiId, errId, outcome);
      && r.messages == ExpectedMessages(st, sub, userId, aiId, errId, outcome)
      && !r.isLoading && !r.showWelcome
      && r.imagePreview.None? && !r.hasImageFile
      && (r.error.Some? <==> outcome.SetupFailure? || outcome.failure.Some?)
      && r.inputValue == (if sub.FromForm? then "" else st.inputValue)
  {
    match outcome
    case SetupFailure(e) => SubmitSetupFailed(st, sub, userId, aiId, errId, e);
    case Streamed(chunks, failure) => SubmitStreamed(st, sub, userId, aiId, errId, chunks, failure);
  }

  /** A call that throws before streaming leaves the user message followed by one apology message. */
  lemma SubmitSetupFailed(st: ChatState, sub: Submission, userId: string, aiId: string, errId: string, e: Thrown)
    requires Accepts(st, SubmittedText(st, sub))
    ensures var r := Submit(st, sub, userId, aiId, errId, SetupFailure(e));
      && r.messages == ExpectedMessages(st, sub, userId, aiId, errId, SetupFailure(e))
      && !r.isLoading && !r.showWelcome && r.imagePreview.None? && !r.hasImageFile && r.error.Some?
      && r.inputValue == (if sub.FromForm? then "" else st.inputValue)
  {
    var st1 := BeginSubmit(st, sub, userId);
    var user := UserMessage(userId, SubmittedText(st, sub), st.imagePreview);
    var apology := Message(errId, Model, "Sorry, I encountered an error: " + ErrorText(e), None);
    AcceptedState(st, sub, userId);
    assert Submit(st, sub, userId, aiId, errId, SetupFailure(e)) == Fail(st1, errId, e);
    assert st.messages + [user] + [apology] == st.messages + [user, apology];
  }

  /** What an accepted submission leaves before the call: the user message appended and the input locked. */
  lemma AcceptedState(st: ChatState, sub: Submission, userId: string)
    requires Accepts(st, SubmittedText(st, sub))
    ensures var st1 := BeginSubmit(st, sub, userId);
      && st1.messages == st.messages + [UserMessage(userId, SubmittedText(st, sub), st.imagePreview)]
      && !st1.showWelcome && st1.imagePreview.None? && !st1.hasImageFile
      && st1.inputValue == (if sub.FromForm? then "" else st.inputValue)
  {
  }

  /** A call that returns a stream leaves the user message, the streamed model message, and an apology only on failure. */
  lemma SubmitStreamed(st: ChatState, sub: Submission, userId: string, aiId: string, errId: string,
                       chunks: seq<string>, failure: Option<Thrown>)
    requires Accepts(st, SubmittedText(st, sub))
    requires FreshId(st.messages, aiId) && aiId != userId
    ensures var r := Submit(st, sub, userId, aiId, errId, Streamed(chunks, failure));
      && r.messages == ExpectedMessages(st, sub, userId, aiId, errId, Streamed(chunks, failure))
      && !r.isLoading && !r.showWelcome && r.imagePreview.None? && !r.hasImageFile
      && (r.error.Some? <==> failure.Some?)
      && r.inputValue == (if sub.FromForm? then "" else st.inputValue)
  {
    StreamedState(st, sub, userId, aiId, chunks);
    var st2 := StreamChunks(OpenModelMessage(BeginSubmit(st, sub, userId), aiId), aiId, "", chunks);
    var r := Submit(st, sub, userId, aiId, errId, Streamed(chunks, failure));
    assert r == if failure.Some? then Fail(st2, errId, failure.value) else st2;
    if failure.None? {
      var kept := st2.messages;
      assert kept + [] == kept;
    }
  }

  /** Once the stream ends, the accepted submission is followed by the streamed model message. */
  lemma StreamedState(st: ChatState, sub: Submission, userId: string, aiId: string, chunks: seq<string>)
    requires Accepts(st, SubmittedText(st, sub))
    requires FreshId(st.messages, aiId) && aiId != userId
    ensures var r := StreamChunks(OpenModelMessage(BeginSubmit(st, sub, userId), aiId), aiId, "", chunks);
      && r.messages == st.messages + [UserMessage(userId, SubmittedText(st, sub), st.imagePreview), Message(aiId, Model, Concat(chunks), None)]
      && !r.isLoading && !r.showWelcome && r.imagePreview.None? && !r.hasImageFile && r.error.None?
      && r.inputValue == (if sub.FromForm? then "" else st.inputValue)
  {
    var user := UserMessage(userId, SubmittedText(st, sub), st.imagePreview);
    var prior := st.messages + [user];
    var st0 := OpenModelMessage(BeginSubmit(st, sub, userId), aiId);
    OpenAfterBegin(st, sub, userId, aiId);
    FreshAfterUser(st.messages, user, aiId);
    StreamIntoFresh(st0, prior, aiId, chunks);
    assert prior + [Message(aiId, Model, Concat(chunks), None)]
      == st.messages + [user, Message(aiId, Model, Concat(chunks), None)];
  }

  /** Opening the model message after an accepted submission: the user message, then the placeholder. */
  lemma OpenAfterBegin(st: ChatState, sub: Submission, userId: string, aiId: string)
    requires Accepts(st, SubmittedText(st, sub))
    ensures var st0 := OpenModelMessage(BeginSubmit(st, sub, userId), aiId);
      && st0.messages == st.messages + [UserMessage(userId, SubmittedText(st, sub), st.imagePreview)] + [Message(aiId, Model, "", None)]
      && !st0.isLoading && !st0.showWelcome && st0.imagePreview.None? && !st0.hasImageFile && st0.error.None?
      && st0.inputValue == (if sub.FromForm? then "" else st.inputValue)
  {
  }

  /** An id is still fresh after a message with another id is appended. */
  lemma FreshAfterUser(messages: seq<Message>, m: Message, id: string)
    requires FreshId(messages, id) && m.id != id
    ensures FreshId(messages + [m], id)
  {
    assert forall i :: 0 <= i < |messages| ==> (messages + [m])[i] == messages[i];
  }

  /**
    Streaming into a freshly opened model message leaves the earlier messages
    alone and turns the placeholder into a message holding all the chunks.
   */
  lemma StreamIntoFresh(st: ChatState, prior: seq<Message>, aiId: string, chunks: seq<string>)
    requires st.messages == prior + [Message(aiId, Model, "", None)]
    requires FreshId(prior, aiId)
    ensures StreamChunks(st, aiId, "", chunks) == st.(messages := prior + [Message(aiId, Model, Concat(chunks), None)])
  {
    var n := |prior|;
    if chunks != [] {
      StreamedContent(st, aiId, "", chunks);
      var r := StreamChunks(st, aiId, "", chunks);
      var expected := prior + [Message(aiId, Model, Concat(chunks), None)];
      forall i | 0 <= i < n ensures r.messages[i] == expected[i] {
        assert st.messages[i] == prior[i];
      }
      assert r.messages[n] == expected[n];
      assert r.messages == expected;
    }
  }

  /** The effect on `resetKey`: a positive key starts a fresh, empty conversation. */
  function Reset(st: ChatState, resetKey: Option<int>): (r: ChatState)
    ensures resetKey.Some? && resetKey.value > 0 ==>
      && r.messages == [] && r.inputValue == "" && !r.isLoading && r.error.None? && r.showWelcome
      && r.imagePreview.None? && !r.hasImageFile
    ensures !(resetKey.Some? && resetKey.value > 0) ==> r == st
  {
    if resetKey.Some? && resetKey.value > 0 then
      ChatState([], "", false, None, true, None, false)
    else st
  }

  /** A suggestion already used as some message's content is not offered again. */
  predicate Unused(messages: seq<Message>, s: string) {
    forall i :: 0 <= i < |messages| ==> messages[i].content != s
  }

  /** `promptSuggestions.filter(s => !messages.some(m => m.content === s)).slice(0, 3)`. */
  function Suggestions(messages: seq<Message>): seq<string> {
    Take(Filter(PromptSuggestions, s => Unused(messages, s)), 3)
  }

  /** The four suggestions are pairwise different: their first letters differ. */
  lemma SuggestionsDistinct()
    ensures forall k, j :: 0 <= k < j < |PromptSuggestions| ==> PromptSuggestions[k] != PromptSuggestions[j]
  {
    forall k, j | 0 <= k < j < |PromptSuggestions| ensures PromptSuggestions[k] != PromptSuggestions[j] {
      assert PromptSuggestions[k][0] != PromptSuggestions[j][0];
    }
  }

  /**
    The chips are at most three suggestions, in their original order, none of
    them the content of a message; an unused suggestion is left out only when
    three chips are already shown, and then only behind them: an unused
    suggestion listed before a chip is itself a chip, so the chips are the
    first three unused suggestions.
   */
  lemma SuggestionsSpec(messages: seq<Message>)
    ensures var r := Suggestions(messages);
      && |r| <= 3
      && IsSubsequence(r, PromptSuggestions)
      && (forall s :: s in r ==> Unused(messages, s))
      && (forall s :: s in PromptSuggestions && Unused(messages, s) && s !in r ==> |r| == 3)
      && (forall i, j :: EarlierUnusedShown(messages, r, i, j))
  {
    var f := Filter(PromptSuggestions, s => Unused(messages, s));
    FilterSpec(PromptSuggestions, s => Unused(messages, s));
    SubsequencePrefix(f, PromptSuggestions, |Suggestions(messages)|);
    SuggestionsFirstUnused(messages);
  }

  /** When suggestion `j` is a chip, every unused suggestion `i` listed before it is a chip too. */
  predicate EarlierUnusedShown(messages: seq<Message>, r: seq<string>, i: int, j: int) {
    (0 <= i < j < |PromptSuggestions| && Unused(messages, PromptSuggestions[i]) && PromptSuggestions[j] in r)
    ==> PromptSuggestions[i] in r
  }

  /** The chips leave no unused suggestion out ahead of them. */
  lemma SuggestionsFirstUnused(messages: seq<Message>)
    ensures forall i, j :: EarlierUnusedShown(messages, Suggestions(messages), i, j)
  {
    SuggestionsDistinct();
    forall i, j | 0 <= i < j < |PromptSuggestions| && Unused(messages, PromptSuggestions[i])
        && PromptSuggestions[j] in Suggestions(messages)
      ensures PromptSuggestions[i] in Suggestions(messages)
    {
      TakeFilterEarlier(PromptSuggestions, s => Unused(messages, s), 3, i, j);
    }
  }

  /** The chips shown: only outside the welcome screen, with 1 to 9 messages, not loading and no preview. */
  function VisibleSuggestions(st: ChatState): (r: seq<string>)
    ensures r != [] ==> !st.showWelcome && 0 < |st.messages| < 10 && !st.isLoading && !Truthy(st.imagePreview)
    ensures !st.showWelcome && 0 < |st.messages| < 10 && !st.isLoading && !Truthy(st.imagePreview) ==>
      r == Suggestions(st.messages)
  {
    if !st.showWelcome && 0 < |st.messages| < 10 && !st.isLoading && !Truthy(st.imagePreview) then
      Suggestions(st.messages)
    else []
  }
}
