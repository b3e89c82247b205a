# Bedrock aí — a verified model of the chat core

Bedrock aí is a chat assistant for Minecraft Bedrock Edition addon creation.
This Dafny project models the pure logic at its centre and proves properties of
that logic. The modules follow the program's files:

- `Segments`, in `segments.dfy`, is the reply segmenter of the chat view (`parseMessageSegments`). It splits a model reply into ordered plain-text and fenced-code segments. The global regular expression of the source is replaced by a deterministic matcher. `MatchAt` matches at one position and `FindFrom` finds the leftmost match. The matcher is proved equal to a declarative reading of the expression (`RegexMatch`). The `while` loop is written out as a method (`ParseLoop`) and proved equal to the recursive definition.
- `Prompt`, in `prompt.dfy`, covers the input schema of the chat flow and the prompt it assembles. The prompt is the system instruction, the role-tagged history parts, an optional caption and image, and the user's message.
- `Chat`, in `chat.dfy`, is the chat panel's state machine:
  - the submit guard and the user message;
  - the history sent to the flow;
  - folding streamed chunks into one model message;
  - the error path;
  - the reset on a new `resetKey`;
  - the suggestion chips.
- `CodeBlock`, in `codeblock.dfy`, covers the download file name, CSS class and footer label of a code block.
- `DocSearch`, in `docsearch.dfy`, is the documentation explorer's case-insensitive filter over its four fixed documents.
- `Header`, in `header.dfy`, covers the header's title default and the 30-character truncation of its mobile title.
- `Page`, in `page.dfy`, covers the home page's title from the first five words of the first message, and the new-chat counter.
- `Common`, in `common.dfy`, holds the JavaScript string semantics the rest relies on:
  - truthiness and `||`;
  - `trim` with the ECMAScript whitespace set;
  - ASCII `toLowerCase`;
  - `includes`, `filter` and `slice`.

Message ids come from `Date.now()` in the source. Here they are parameters, and the lemmas assume them fresh. Stream chunks are already-decoded strings. A call to the flow is an `Outcome` parameter: it either throws before streaming, or delivers some chunks and then ends or throws.

Three points about the code itself:

- The file name of a code block cannot tell "no language" from the language `txt`. Both download as `bedrock_code.txt`. So the extension is `txt` when no language is given, but not only then. `CodeBlock.TxtExtensionIff` states the exact condition. `CodeBlock.TxtLanguageIndistinguishable` exhibits the collision.
- `src/app/page.tsx:30` passes an `onChatStart` callback to `ChatInterface`. The props of that component (`src/components/features/CodeGenerator.tsx:34-36`) declare only `resetKey`, and nothing in it calls the callback. So `handleChatStart` is modelled as the page defines it (`Page.ChatStart`), but as the code stands nothing ever triggers it.
- The fallback branch of `parseMessageSegments` (empty result after the loop) is reachable only for the empty reply (`Segments.FallbackOnlyForEmpty`). Its second and third outcomes cannot happen.

## Model

| member | source | states |
|---|---|---|
| Common.OrElse | src/components/layout/Header.tsx:33 | JavaScript's `or` with a default on an optional string: the value when it is present and non-empty, the fallback otherwise |
| Common.TrimStart | src/components/features/CodeGenerator.tsx:161 | the leading part of `trim()`: the result is a suffix, everything removed is ECMAScript whitespace, and it is empty or starts with a non-whitespace character |
| Common.TrimEnd | src/components/features/CodeGenerator.tsx:161 | the trailing part of `trim()`: the result is a prefix, everything removed is ECMAScript whitespace, and it is empty or ends with a non-whitespace character |
| Common.Trim | src/components/features/CodeGenerator.tsx:161 | `trim()` as both parts in turn; no contract of its own, and `Common.TrimEmptyIffBlank` states when it is empty |
| Common.TrimEmptyIffBlank | src/components/features/CodeGenerator.tsx:161 | `s.trim()` is empty exactly when every character of `s` is ECMAScript whitespace |
| Common.Lower | src/components/features/DocumentationSearch.tsx:37-38 | `toLowerCase` keeps the length and maps each character on its own, ASCII letters only |
| Common.LowerIdempotent | src/components/features/CodeBlockDisplay.tsx:52 | lower-casing an already lower-cased string changes nothing |
| Common.Includes | src/components/features/DocumentationSearch.tsx:37-38 | the scanning `includes`; no contract of its own, and `Common.IncludesIffOccurs` proves it equal to occurrence at some index |
| Common.IncludesIffOccurs | src/components/features/DocumentationSearch.tsx:37-38 | the scanning `includes` holds exactly when the needle occurs at some index of the haystack |
| Common.Take | src/components/features/CodeGenerator.tsx:377 | `slice(0, n)` keeps the first `min(n, length)` items, as a prefix |
| Common.Filter | src/components/features/CodeGenerator.tsx:377 | `filter` never lengthens a list; what it keeps is stated by `Common.FilterSpec` |
| Common.FilterSpec | src/components/features/CodeGenerator.tsx:377 | `filter` keeps exactly the items satisfying the predicate, each as many times as it occurs, in their original order |
| Common.TakeFilterEarlier | src/components/features/CodeGenerator.tsx:377 | in the first `n` items a filter keeps, an item present brings every kept item listed before it, unless it also occurs earlier |
| Segments.TagEnd | src/components/features/ChatMessageContent.tsx:16 | the greedy tag `[a-zA-Z0-9\-_]*` ends at the first character outside the class |
| Segments.NextFence | src/components/features/ChatMessageContent.tsx:16 | the lazy body `[\s\S]*?` stops at the first closing "```", and no fence lies before it |
| Segments.RegexMatch | src/components/features/ChatMessageContent.tsx:16 | the declarative reading of the expression at a position: fence, tag characters, newline, a body without a fence, fence; no contract of its own, it is what `Segments.MatchAtSound` and `Segments.MatchAtComplete` compare the matcher with |
| Segments.MatchAt | src/components/features/ChatMessageContent.tsx:16 | a match anchored at `p` starts at `p` and lies inside the input in order: fence, tag, newline, body, fence |
| Segments.MatchAtSound | src/components/features/ChatMessageContent.tsx:16 | what the anchored matcher finds is a match of the regular expression, with a tag of tag characters and a fence-free body |
| Segments.MatchAtComplete | src/components/features/ChatMessageContent.tsx:16 | every match of the regular expression at `p` is the one the matcher finds, so the match at a position is unique |
| Segments.FindFrom | src/components/features/ChatMessageContent.tsx:20 | `exec` from `lastIndex`: a match found starts at or after `lastIndex` and fits in the input |
| Segments.FindFromFirst | src/components/features/ChatMessageContent.tsx:20 | the match found is the one at its start, and the expression matches nowhere between `lastIndex` and it, or nowhere at all when nothing is found |
| Segments.FindFromLeftmost | src/components/features/ChatMessageContent.tsx:20 | whenever the expression matches at or after `lastIndex`, a match is found and it starts no later |
| Segments.Scan | src/components/features/ChatMessageContent.tsx:20-42 | the gaps and matches the loop visits tile the input from `lastIndex` to its end, each lying inside it, with never two gaps in a row |
| Segments.ScanValid | src/components/features/ChatMessageContent.tsx:20-42 | each gap visited holds no match of the expression, and each match visited is the match at its start |
| Segments.DropTrailingNewline | src/components/features/ChatMessageContent.tsx:31-33 | at most one trailing newline is removed, and exactly when the body ends with one |
| Segments.CodeOf | src/components/features/ChatMessageContent.tsx:26-35 | the code segment built from a match; no contract of its own, and `Segments.RendersMatchUnique` shows it is the only segment that fits the match's tag and body |
| Segments.RendersMatchUnique | src/components/features/ChatMessageContent.tsx:26-35 | a code segment whose language is the tag (none for an empty one) and whose value is the body less at most one trailing newline, removed exactly when present, is the segment the parser builds |
| Segments.ParseMessageSegments | src/components/features/ChatMessageContent.tsx:14-60 | the result is never empty, has one segment per visited span for a non-empty reply, and is `[text ""]` exactly for the empty reply |
| Segments.FallbackOnlyForEmpty | src/components/features/ChatMessageContent.tsx:46-56 | the loop and the tail produce nothing only for the empty reply, which the fallback turns into `[text ""]` |
| Segments.ParseRendersSpans | src/components/features/ChatMessageContent.tsx:20-42 | on a non-empty reply the result is exactly the spans the loop visits, rendered in order |
| Segments.MatchText | src/components/features/ChatMessageContent.tsx:16 | a match spells "```", its tag, a newline, its body and "```", and nothing else |
| Segments.MatchParts | src/components/features/ChatMessageContent.tsx:16 | a tag holds tag characters only, and a body contains no "```" |
| Segments.NoFenceNoBackticks | src/components/features/ChatMessageContent.tsx:50 | `includes("```")` holds exactly when three backticks start at some index |
| Segments.TextSegments | src/components/features/ChatMessageContent.tsx:22-24 | every text segment is non-empty and is the text of a visited gap, in which the expression matches nowhere |
| Segments.TextThenCode | src/components/features/ChatMessageContent.tsx:40-42 | a text segment is never followed by another text segment |
| Segments.CodeSegments | src/components/features/ChatMessageContent.tsx:26-35 | every code segment comes from a match at its start: `lang` is absent for an empty tag and otherwise a non-empty tag of tag characters; its value is the body with at most one trailing newline removed, and it contains no "```" |
| Segments.UnterminatedIsText | src/components/features/ChatMessageContent.tsx:40-42 | a reply in which no fence can follow another, such as one with an unterminated fence, is one text segment holding the whole reply |
| Segments.NoBackticksIsText | src/components/features/ChatMessageContent.tsx:50-52 | a reply without "```" is one text segment holding the whole reply |
| Segments.TilesSpell | src/components/features/ChatMessageContent.tsx:20-42 | spans that tile the input from `lastIndex` spell out exactly the rest of the input |
| Segments.Partition | src/components/features/ChatMessageContent.tsx:20-42 | the gaps and matched fences, in order, concatenate to exactly the reply: no gaps and no overlaps |
| Segments.ParseLoop | src/components/features/ChatMessageContent.tsx:14-60 | the source's `while` loop with `lastIndex`, the tail push and the fallback computes the same segments as the recursive definition |
| Segments.LoopTurn | src/components/features/ChatMessageContent.tsx:22-35 | one turn pushes two segments exactly when the match starts after `lastIndex`, the first being the text in between; the last is a code block whose language and value are read off the match's tag and body |
| Segments.TurnIsStep | src/components/features/ChatMessageContent.tsx:22-35 | whatever a turn pushes, as `Segments.LoopTurn` describes it, is that turn's segments in the recursive definition |
| Segments.ScanStep | src/components/features/ChatMessageContent.tsx:20-37 | the segments from `lastIndex` are this turn's segments followed by those from the match's end |
| Segments.ScanDone | src/components/features/ChatMessageContent.tsx:40-42 | once no match is left, what remains is one text segment when non-empty, and nothing otherwise |
| Prompt.EntryParts | src/ai/flows/generate-bedrock-addon-code.ts:63 | one prompt part per element of an entry's `parts`, each carrying the entry's role and the part's text |
| Prompt.HistoryParts | src/ai/flows/generate-bedrock-addon-code.ts:61-65 | the history contributes as many parts as its entries have parts in total |
| Prompt.HistoryPartsAreTagged | src/ai/flows/generate-bedrock-addon-code.ts:61-65 | every history part is a text part carrying a role |
| Prompt.HistoryPartAt | src/ai/flows/generate-bedrock-addon-code.ts:61-65 | part `k` of entry `j` sits after the parts of the entries before it, tagged with entry `j`'s role, so the parts keep history order |
| Prompt.ImageParts | src/ai/flows/generate-bedrock-addon-code.ts:67-72 | a non-empty image adds exactly the caption and the media part; an absent or empty one adds nothing |
| Prompt.BuildPrompt | src/ai/flows/generate-bedrock-addon-code.ts:46-75 | the prompt starts with the system instruction, then the history parts, then the image parts if any, and ends with the user's message even when it is empty; its length is one, plus the total number of history parts, plus two with an image, plus one; an absent history adds no parts |
| Prompt.MediaOnlyForImage | src/ai/flows/generate-bedrock-addon-code.ts:67-72 | a media part occurs exactly when the image is non-empty, and then only once, next to last, with the image's URL |
| Chat.Accepts | src/components/features/CodeGenerator.tsx:161 | the submit guard as "not blank, or an image file"; no contract of its own, and `Chat.AcceptsIffTrimmed` proves it equal to the source's test |
| Chat.AcceptsIffTrimmed | src/components/features/CodeGenerator.tsx:161 | the guard holds exactly when the text trims to something or an image file is selected |
| Chat.UserMessage | src/components/features/CodeGenerator.tsx:164-169 | the user message carries the submitted text, and carries the preview exactly when the preview is non-empty |
| Chat.BeginSubmit | src/components/features/CodeGenerator.tsx:152-179 | a rejected submission leaves the state unchanged; an accepted one appends exactly one user message after the old ones, clears the input for form submissions only, sets loading, and clears the error, the welcome screen and the image |
| Chat.ToHistory | src/components/features/CodeGenerator.tsx:184-187 | the history entry of one message; no contract of its own, and `Chat.HistoryIsPriorMessages` states the whole history |
| Chat.HistoryForAI | src/components/features/CodeGenerator.tsx:182-187 | the history is never longer than the message list |
| Chat.HistoryIsPriorMessages | src/components/features/CodeGenerator.tsx:182-187 | with a fresh id, the history is the prior messages in order, each as its role and one text part; images are not forwarded |
| Chat.RequestFor | src/components/features/CodeGenerator.tsx:189-193 | the request carries the history built from the messages before the submission and the submitted text, and carries the preview itself exactly when the preview was non-empty |
| Chat.PromptSizeForSubmission | src/components/features/CodeGenerator.tsx:182-195 | the prompt built for a submission has one part per prior message plus two, or plus four with an image |
| Chat.OpenModelMessage | src/components/features/CodeGenerator.tsx:201-205 | once the stream is returned, one empty model message is appended and loading ends; nothing else changes |
| Chat.ApplyChunk | src/components/features/CodeGenerator.tsx:212-216 | a chunk update changes only the content of the message with the model message's id; all other messages are unchanged |
| Chat.StreamChunks | src/components/features/CodeGenerator.tsx:207-217 | the read loop changes only the message list, and keeps its length; `Chat.StreamedContent` states the contents |
| Chat.StreamedContent | src/components/features/CodeGenerator.tsx:207-217 | after the chunks, that message holds everything streamed so far, the other messages are unchanged, and only the message list changes |
| Chat.ContentAfterChunks | src/components/features/CodeGenerator.tsx:207-217 | after the first `k` chunks the model message holds exactly the concatenation of those chunks |
| Chat.Fail | src/components/features/CodeGenerator.tsx:219-233 | on failure, loading ends, `error` becomes "Failed to get response: " plus the message, and exactly one apology message is appended; input, welcome screen and image are left alone |
| Chat.Submit | src/components/features/CodeGenerator.tsx:152-235 | a rejected submission, whatever the call would have done, leaves the state unchanged |
| Chat.SubmitOutcome | src/components/features/CodeGenerator.tsx:152-235 | an accepted submission leaves the user message, then the whole streamed text as one model message (kept when the stream fails part-way), then one apology on failure; loading is over, the error is set exactly when the call failed, and the input is cleared exactly for form submissions |
| Chat.SubmitSetupFailed | src/components/features/CodeGenerator.tsx:195-233 | a call that throws before streaming leaves the user message and one apology |
| Chat.SubmitStreamed | src/components/features/CodeGenerator.tsx:195-234 | a call that streams leaves the user message and the streamed message, and an apology exactly when it then fails |
| Chat.StreamedState | src/components/features/CodeGenerator.tsx:164-217 | after an accepted submission streams to the end, the messages are the old ones, the user message and the full model message |
| Chat.StreamIntoFresh | src/components/features/CodeGenerator.tsx:199-216 | streaming into a freshly opened model message leaves the earlier messages alone and fills the placeholder with all chunks |
| Chat.Reset | src/components/features/CodeGenerator.tsx:101-108 | a positive key gives empty messages and input, no loading, no error, the welcome screen and no image; any other key, or none, changes nothing |
| Chat.Suggestions | src/components/features/CodeGenerator.tsx:377 | the filtered, sliced suggestions; no contract of its own, and `Chat.SuggestionsSpec` states which they are |
| Chat.SuggestionsSpec | src/components/features/CodeGenerator.tsx:377 | the chips are at most three suggestions, in their original order, none equal to a message's content; an unused suggestion is missing only when three are shown, and never ahead of a chip, so the chips are the first three unused suggestions |
| Chat.SuggestionsFirstUnused | src/components/features/CodeGenerator.tsx:377 | an unused suggestion listed before a chip is itself a chip |
| Chat.VisibleSuggestions | src/components/features/CodeGenerator.tsx:375-377 | chips are shown only outside the welcome screen with 1 to 9 messages, no loading and no preview, and then they are the filtered suggestions |
| CodeBlock.Filename | src/components/features/CodeBlockDisplay.tsx:36 | the file name always starts with "bedrock_code." and has a non-empty extension |
| CodeBlock.FilenameExtension | src/components/features/CodeBlockDisplay.tsx:36 | the extension is the language when it is non-empty and "txt" otherwise, and two languages give the same name exactly when they give the same extension |
| CodeBlock.TxtExtensionIff | src/components/features/CodeBlockDisplay.tsx:36 | the extension is "txt" exactly when no language is given or the language is "txt" |
| CodeBlock.TxtLanguageIndistinguishable | src/components/features/CodeBlockDisplay.tsx:36 | the language "txt" and no language download under the same name |
| CodeBlock.LangClass | src/components/features/CodeBlockDisplay.tsx:52 | the class is "language-" plus the language lower-cased when one is given, and "language-text" otherwise; so the suffix is never empty and has no upper-case ASCII letter |
| CodeBlock.LangClassIgnoresCase | src/components/features/CodeBlockDisplay.tsx:52 | two languages get the same class exactly when they agree after lower-casing |
| CodeBlock.Label | src/components/features/CodeBlockDisplay.tsx:90 | the label is never empty and is the language verbatim when one is given |
| CodeBlock.CodeBlockOfMatch | src/components/features/CodeBlockDisplay.tsx:36-90 | for a parsed code block, the label is the fence's tag or "TEXT", the file name ends in the tag or "txt", and its only '.' ends the prefix |
| DocSearch.SearchGuardIsTrim | src/components/features/DocumentationSearch.tsx:31-39 | a term whose trimmed form is empty finds nothing; any other term is matched, untrimmed, against every document by the filter's test |
| DocSearch.Search | src/components/features/DocumentationSearch.tsx:31-39 | a blank term finds nothing; `DocSearch.SearchSound` and `DocSearch.SearchComplete` state the results for any other term |
| DocSearch.Matches | src/components/features/DocumentationSearch.tsx:36-39 | the filter's test; no contract of its own, and `DocSearch.MatchesIff` states what it means |
| DocSearch.MatchesIff | src/components/features/DocumentationSearch.tsx:36-39 | the filter's scanning substring test agrees with "title or snippet contains the term at some position, both lower-cased" |
| DocSearch.SearchOrdered | src/components/features/DocumentationSearch.tsx:31-39 | the results keep the documents' order and add nothing |
| DocSearch.SearchSound | src/components/features/DocumentationSearch.tsx:31-39 | every result is a document whose title or snippet contains the untrimmed term ignoring case |
| DocSearch.SearchComplete | src/components/features/DocumentationSearch.tsx:31-39 | for a non-blank term a document is a result exactly when its title or snippet contains the term ignoring case |
| DocSearch.HandleSearch | src/components/features/DocumentationSearch.tsx:28-41 | every search marks the explorer as searched and keeps the term; a blank term shows no results |
| Header.DisplayTitle | src/components/layout/Header.tsx:33 | the title is the page title when it is non-empty, and "Bedrock aí" otherwise |
| Header.Truncate | src/components/layout/Header.tsx:34 | a title of at most 30 characters is kept; a longer one becomes its first 27 characters followed by "...", exactly 30 characters |
| Header.TruncateKeepsPrefix | src/components/layout/Header.tsx:34 | the first `min(27, length)` characters survive, and truncating twice is truncating once |
| Header.HeaderText | src/components/layout/Header.tsx:33-34 | the title the mobile header shows (`truncatedTitle`) is never empty and never longer than 30 characters |
| Page.Split | src/app/page.tsx:24 | `split(' ')` always yields at least one piece |
| Page.Join | src/app/page.tsx:24 | `join(' ')`; no contract of its own, and `Page.SplitJoin` proves it undoes `split(' ')` |
| Page.SplitJoin | src/app/page.tsx:24 | joining the pieces with ' ' gives back the string; there is one more piece than spaces, and no piece contains a space |
| Page.FirstWords | src/app/page.tsx:24 | the first five space-separated words; no contract of its own, and `Page.FirstWordsSpec` pins them down |
| Page.FirstWordsSpec | src/app/page.tsx:24 | the title is a prefix of the message with `min(spaces, 4)` spaces; it is the whole message when the message has at most four spaces, and otherwise is followed in the message by a space |
| Page.FirstWordsEmptyIff | src/app/page.tsx:24-25 | the first five words are empty exactly for the empty message, so "Chat" stands in only then |
| Page.ChatTitle | src/app/page.tsx:25 | the title handed to the header is never empty |
| Page.ChatStart | src/app/page.tsx:22-26 | the first message sets the header title to its chat title and leaves the key alone |
| Page.NewChat | src/app/page.tsx:14-16 | a new chat increments the key by exactly one and resets the title to "Bedrock aí" |
| Page.NewChatResets | src/app/page.tsx:10-16 | the key a new chat hands down is positive, so the conversation is reset; the initial key leaves it alone; the header then shows "Bedrock aí" |
| Page.HeaderAfterChatStart | src/app/page.tsx:24-25 | the mobile header title shows a short message with at most four spaces as is, "Chat" for the empty message, and keeps the first 27 characters of a long title |

## Left out

- The Genkit calls `ai.defineFlow` and `ai.generateStream`, and the `invokeChat` wrapper, are left out. They are foreign library calls; the model stops at the assembled prompt, and a call's result is the `Outcome` parameter.
- There is no separate stream relay in the code: the flow returns Genkit's stream as is. So none is modelled.
- `TextDecoder` UTF-8 decoding is left out; chunks are already-decoded strings.
- `Date.now()` ids are left out; they are parameters, assumed fresh where a lemma needs it.
- The toast shown on failure is left out; it is a user-interface side effect that changes no modelled state.
- Browser I/O is left out: `localStorage` persistence and loading, `FileReader`, the clipboard, `Blob`/`URL.createObjectURL` and the DOM download.
- React effects are left out: focus, scrolling, `setTimeout` and the avatar and name reload in the reset effect. `setState` calls are applied as ordered functional updates.
- JSX rendering is left out, including the CSS `uppercase` applied to the footer label, so the label is modelled before styling.
- `handleNewChat` also closes the desktop sidebar; that is presentation state and is left out.
- The mobile and desktop chat interface copies and the mock-only panels are presentation or duplicates of the modelled logic, and are left out.
- `Common.Lower`: models ASCII case mapping only, not Unicode `toLowerCase`.
- `Header.HeaderText`: is the mobile header's title; the desktop header shows `Header.DisplayTitle` in full, and the choice between the two on `isMobile` is presentation.
- `Header.Truncate`: counts `seq<char>` elements rather than UTF-16 code units, so astral characters count as one.
- `Page.ChatStart`: modelled as the page defines it, although, as the code stands, the chat component never calls the callback.
- `Chat.Accepts`: states the guard as "not blank"; `Chat.AcceptsIffTrimmed` proves it equal to the source's `trim()` test.
- `Segments.ParseMessageSegments`: states the fallback's blank test as "not blank"; `Segments.ParseLoop` keeps the source's `trim()` comparison and is proved equal to it.
- `DocSearch.Search`: states the guard as "blank"; `DocSearch.SearchGuardIsTrim` proves it equal to the source's `trim()` test.
