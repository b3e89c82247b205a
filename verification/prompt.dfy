/**
  The input schema of the chat flow and the prompt it assembles before handing
  it to the generation API: the fixed system instruction, then every part of
  every history entry tagged with the entry's role, then (for a non-empty
  image) a caption and the image itself, and last the user's message.
 */
module Prompt {
  import opened Common

  /** `z.enum(['user', 'model'])`: a history entry's role is one of exactly two values. */
  datatype Role = User | Model

  /** `{text: string}`, one element of a history entry's `parts`. */
  datatype TextPart = TextPart(text: string)

  /** `HistoryMessageSchema`. */
  datatype HistoryMessage = HistoryMessage(role: Role, parts: seq<TextPart>)

  /** `ChatInputSchema`: optional history, the latest message, an optional image data URI. */
  datatype ChatInput = ChatInput(history: Option<seq<HistoryMessage>>, message: string, imageDataUri: Option<string>)

  /** One prompt part: text with an optional role, or a media reference. */
  datatype PromptPart = Text(role: Option<Role>, text: string) | Media(url: string)

  /** The fixed instruction that opens every prompt. */
  const SystemInstruction: string :=
    "You are \"Bedrock a\U{ED}\", an expert AI assistant specializing in Minecraft Bedrock Edition and addon creation (including behavior packs, resource packs, scripting, entities, items, blocks, etc.).\n"
    + "Your primary goal is to help users by answering their questions, providing explanations, generating code snippets, and offering guidance related to Minecraft Bedrock development.\n"
    + "Strictly adhere to the scope of Minecraft Bedrock and addon development.\n"
    + "If a question is unrelated to Minecraft Bedrock, its addons, or general coding concepts applicable to it, politely decline to answer and gently steer the conversation back to Bedrock development.\n"
    + "Do not answer questions about other games, general knowledge, or topics outside this scope.\n"
    + "When generating code (e.g., JSON, JavaScript for scripting), make sure it is well-formatted and clearly explained.\n"
    + "If the user provides an image, consider it as part of their query context. For example, it might be a screenshot of an error, a texture, or a diagram relevant to their addon.\n"
    + "Previous conversation history is provided. Use it to maintain context."

  /** The caption placed before an attached image. */
  const ImageCaption: string := "The user has provided the following image as part of their query:"

  /** The total number of parts over all history entries. */
  function PartCount(history: seq<HistoryMessage>): nat {
    if history == [] then 0 else |history[0].parts| + PartCount(history[1..])
  }

  /** `h.parts.map(part => ({ role: h.role, ...part }))` for one entry. */
  function EntryParts(h: HistoryMessage): (r: seq<PromptPart>)
    ensures |r| == |h.parts|
    ensures forall k :: 0 <= k < |h.parts| ==> r[k] == Text(Some(h.role), h.parts[k].text)
  {
    seq(|h.parts|, k requires 0 <= k < |h.parts| => Text(Some(h.role), h.parts[k].text))
  }

  /** The history loop: the parts of every entry, entry after entry. */
  function HistoryParts(history: seq<HistoryMessage>): (r: seq<PromptPart>)
    ensures |r| == PartCount(history)
  {
    if history == [] then [] else EntryParts(history[0]) + HistoryParts(history[1..])
  }

  /** The history parts are all text parts carrying a role. */
  lemma {:induction false} HistoryPartsAreTagged(history: seq<HistoryMessage>)
    ensures forall i :: 0 <= i < |HistoryParts(history)| ==>
      HistoryParts(history)[i].Text? && HistoryParts(history)[i].role.Some?
  {
    if history != [] {
      HistoryPartsAreTagged(history[1..]);
      var e := EntryParts(history[0]);
      var rest := HistoryParts(history[1..]);
      assert forall i :: |e| <= i < |e| + |rest| ==> (e + rest)[i] == rest[i - |e|];
    }
  }

  /**
    Part `k` of history entry `j` lands at index `PartCount(history[..j]) + k`
    of the history parts, tagged with that entry's role: one prompt part per
    element of `parts`, in history order.
   */
  lemma {:induction false} HistoryPartAt(history: seq<HistoryMessage>, j: nat, k: nat)
    requires j < |history| && k < |history[j].parts|
    ensures PartCount(history[..j]) + k < |HistoryParts(history)|
    ensures HistoryParts(history)[PartCount(history[..j]) + k] == Text(Some(history[j].role), history[j].parts[k].text)
  {
    var e := EntryParts(history[0]);
    var rest := HistoryParts(history[1..]);
    if j == 0 {
      assert history[..0] == [];
    } else {
      HistoryPartAt(history[1..], j - 1, k);
      assert history[..j][1..] == history[1..][..j - 1];
      assert history[..j][0] == history[0];
      assert PartCount(history[..j]) == |e| + PartCount(history[1..][..j - 1]);
    }
  }

  /** `history ?? []`: an absent history contributes nothing. */
  function HistoryOf(input: ChatInput): seq<HistoryMessage> {
    if input.history.Some? then input.history.value else []
  }

  /** The image parts: a caption and the image when `imageDataUri` is truthy, nothing otherwise. */
  function ImageParts(imageDataUri: Option<string>): (r: seq<PromptPart>)
    ensures Truthy(imageDataUri) ==> r == [Text(None, ImageCaption), Media(imageDataUri.value)]
    ensures !Truthy(imageDataUri) ==> r == []
  {
    if Truthy(imageDataUri) then [Text(None, ImageCaption), Media(imageDataUri.value)] else []
  }

  /**
    The prompt the flow builds. No validation is performed: an empty message
    still ends the prompt.
   */
  function BuildPrompt(input: ChatInput): (r: seq<PromptPart>)
    ensures |r| == 1 + PartCount(HistoryOf(input)) + (if Truthy(input.imageDataUri) then 2 else 0) + 1
    ensures r[0] == Text(None, SystemInstruction)
    ensures r[|r| - 1] == Text(Some(User), input.message)
    ensures r[1..1 + PartCount(HistoryOf(input))] == HistoryParts(HistoryOf(input))
    ensures Truthy(input.imageDataUri) ==>
      r[|r| - 3] == Text(None, ImageCaption) && r[|r| - 2] == Media(input.imageDataUri.value)
    ensures input.history.None? ==> r == [Text(None, SystemInstruction)] + ImageParts(input.imageDataUri) + [Text(Some(User), input.message)]
  {
    var h := HistoryParts(HistoryOf(input));
    var r := [Text(None, SystemInstruction)] + h + ImageParts(input.imageDataUri) + [Text(Some(User), input.message)];
    assert r[1..1 + |h|] == h;
    r
  }

  /** A media part appears in the prompt exactly when `imageDataUri` is truthy, and then only once. */
  lemma MediaOnlyForImage(input: ChatInput)
    ensures var r := BuildPrompt(input);
      (exists i :: 0 <= i < |r| && r[i].Media?) <==> Truthy(input.imageDataUri)
    ensures var r := BuildPrompt(input);
      forall i :: 0 <= i < |r| && r[i].Media? ==> i == |r| - 2 && r[i].url == input.imageDataUri.value
  {
    var h := HistoryParts(HistoryOf(input));
    var img := ImageParts(input.imageDataUri);
    HistoryPartsAreTagged(HistoryOf(input));
    var r := BuildPrompt(input);
    assert forall i :: 1 <= i < 1 + |h| ==> r[i] == h[i - 1];
    assert forall i :: 1 + |h| <= i < 1 + |h| + |img| ==> r[i] == img[i - 1 - |h|];
    if Truthy(input.imageDataUri) {
      assert r[|r| - 2].Media?;
    }
  }
}
