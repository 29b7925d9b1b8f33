# Socratica tutor chat: verified model of the conversation core

Socratica is a single-page math-tutor chat. The user types a question or picks a photo
of a problem. The controller appends the user's turn to the conversation and sends the
whole transcript to a generative-language API. It then appends the tutor's answer, or a
fixed apology when the call fails. This project models the two pieces of that client
that are logic rather than UI:

- **The tutor client's serialiser** (module `GeminiService`). It drops `system` turns,
  maps `assistant` to the wire role `model` and every other role to `user`, and turns
  each part into an inline JPEG image or a text fragment. For an image it keeps the
  piece of the data URL between the first and second comma, or the whole string when
  there is no comma or that piece is empty. On success the reply is the response text,
  or a fixed "couldn't generate a response" text when the API sent none. An API error
  is passed on unchanged.
- **The conversation controller** (module `App`, class `Chat`). Its state is the
  message list, the input text, the optional selected image and the loading flag.
  `HandleSend` ignores a send when the effective text is blank and no image is
  selected. Otherwise it builds the user turn, appends it, clears the input and the
  image, sets loading and returns the request built from the history. `Resolve`
  appends exactly one tutor turn and clears loading. The two nudge buttons and the
  send button carry the enable predicates `NudgeEnabled` and `SendEnabled`.

Two JavaScript built-ins whose exact behaviour the core depends on are modelled in
module `JsString`: `split` with a one-character separator and `trim` with the full
ECMAScript white-space set. Module `Types` mirrors the message model.

What is proved, in short:
- Wire turns correspond one to one with non-system messages. Their count is the number
  of non-system indices. Message `i` lands at the position given by the number of
  non-system messages before it, so relative order is kept. The role is `model`
  exactly for `assistant` turns. Each wire turn has one wire part per part, in order.
- The image payload is characterised for every string. Split and join are mutual
  inverses.
- Blank input means all white space. A nudge always sends its fixed text.
- A dispatched send puts the user's turn last on the wire, with a non-empty text part.
- The message list only grows, and earlier entries never change.
- While only the buttons are used, at most one request is outstanding and the loading
  flag shows it (`Chat.Serial`). The Enter key calls the send path whatever the loading
  flag says. `EnterOverlaps` shows two requests in flight and the loading flag cleared
  while one is still unresolved.

Three points of the code's behaviour that are easy to misread:
- Only the buttons are disabled while the loading flag is on (App.tsx:173, 180,
  217). The loading flag is not the same as a request being outstanding. The Enter key path (App.tsx:211) calls the send path without looking at the
  loading flag.
- The image payload is `split(',')[1]` (services/geminiService.ts:33): the piece
  between the first and the second comma, not everything after the first comma. When
  that piece is missing or empty, the whole string is sent.
- The tutor client accepts any message list, the empty one included
  (services/geminiService.ts:27); the model does not require a turn.

## Model

| member | source | states |
|---|---|---|
| `JsString.TrimStart` | App.tsx:42 | the result is a suffix of the input; everything cut is white space; it does not start with white space |
| `JsString.TrimEnd` | App.tsx:42 | the result is a prefix of the input; everything cut is white space; it does not end with white space |
| `JsString.Trim` | App.tsx:42 | `trim` returns a slice of the input with only white space cut on both sides, and the slice neither starts nor ends with white space |
| `JsString.TrimBothEnds` | App.tsx:42 | cutting leading then trailing white space leaves a slice of the input with only white space on either side |
| `JsString.TrimEmptyIffAllSpace` | App.tsx:42 | `!text.trim()` holds exactly when every character of the text is white space |
| `JsString.Split` | services/geminiService.ts:33 | `split(',')` gives one more piece than there are commas, and no piece contains a comma |
| `JsString.JoinSplit` | services/geminiService.ts:33 | joining the pieces of a split with the separator gives back the original string |
| `JsString.SplitJoin` | services/geminiService.ts:33 | splitting the join of separator-free pieces gives back exactly those pieces |
| `JsString.SplitFirst` | services/geminiService.ts:33 | a string cut at its first separator splits into that comma-free head followed by the pieces of the rest |
| `JsString.SplitNoSeparator` | services/geminiService.ts:33 | a string without the separator splits into itself alone |
| `Types.Truthy` | services/geminiService.ts:29 | a JavaScript optional string is truthy exactly when it is present and non-empty |
| `Types.OrElse` | services/geminiService.ts:37 | `s \|\| fallback` is `s` when it is truthy and the fallback otherwise |
| `GeminiService.ToWireRole` | services/geminiService.ts:40 | the wire role is `model` exactly when the local role is `assistant`, and `user` for every other role |
| `GeminiService.ImagePayload` | services/geminiService.ts:33 | the payload is the whole image string, or a non-empty comma-free piece of a string that contains a comma |
| `GeminiService.ImagePayloadNoComma` | services/geminiService.ts:33 | an image string without a comma is sent whole |
| `GeminiService.ImagePayloadAtFirstComma` | services/geminiService.ts:33 | for header, first comma, piece, then nothing or a second comma: the payload is the piece when non-empty, else the whole string |
| `GeminiService.ImagePayloadDataUrlExample` | services/geminiService.ts:33 | `"data:image/jpeg;base64,ABC123"` yields `"ABC123"` |
| `GeminiService.ToWirePart` | services/geminiService.ts:28-38 | a part becomes inline `image/jpeg` data exactly when its image is non-empty, any text is then dropped; otherwise it becomes its text, empty exactly when the text is absent or empty |
| `GeminiService.ToWireTurn` | services/geminiService.ts:39-42 | the turn's role is `model` iff the message is the assistant's; one wire part per part, each the translation of the part at the same index |
| `GeminiService.NonSystem` | services/geminiService.ts:27 | the filter keeps only non-system messages taken from the input and is no longer than it |
| `GeminiService.ToContents` | services/geminiService.ts:27-43 | one wire turn per kept message, each the translation of the kept message at the same position |
| `GeminiService.NonSystemAppend` | services/geminiService.ts:27 | filtering a concatenation is concatenating the filtered parts |
| `GeminiService.ToContentsAppend` | services/geminiService.ts:27-43 | serialising a concatenation is concatenating the serialised parts, so the order of turns is kept |
| `GeminiService.ToContentsSnoc` | services/geminiService.ts:27-43 | appending a message appends its wire turn, or nothing when it is a system message |
| `GeminiService.ToContentsOfTwo` | services/geminiService.ts:27-43 | two non-system messages go on the wire as their two wire turns, in order |
| `GeminiService.ToContentsCount` | services/geminiService.ts:27 | the number of wire turns equals the number of indices holding a non-system message |
| `GeminiService.ToContentsAt` | services/geminiService.ts:27-43 | every non-system message appears as its wire turn at the position counting the non-system messages before it |
| `GeminiService.OrderKept` | services/geminiService.ts:27-43 | of two non-system messages, the earlier one lands at the earlier wire position |
| `GeminiService.NonSystemKeepsAll` | services/geminiService.ts:27 | without system messages the filter keeps the whole list |
| `GeminiService.ToContentsWithoutSystem` | services/geminiService.ts:27-43 | with no system messages there are as many wire turns as messages and turn `k` is message `k` translated |
| `GeminiService.TutorResponse` | services/geminiService.ts:58-62 | fails exactly when the API call fails, with the error unchanged; on success returns the response text when it is non-empty, else the fixed no-response text, so never empty |
| `App.Greeting` | App.tsx:8-15 | the seed message is a single-part message from the assistant |
| `App.IsBlank` | App.tsx:42 | `!text.trim()` holds exactly when every character of the text is white space, the empty text included |
| `App.ShouldSendIff` | App.tsx:42 | the send guard passes exactly when the text has a character that is not white space or a non-empty image is selected |
| `App.EffectiveText` | App.tsx:41 | a non-empty custom text is used, otherwise the typed input |
| `App.UserMessage` | App.tsx:44-52 | the user turn has role `user`; first a text-only part with the text, or the image prompt when the text is empty and an image is selected, never empty when the guard passes; a second image-only part exactly when an image is selected |
| `App.AssistantMessage` | App.tsx:61-74 | the tutor turn has role `assistant` and exactly one part, a text-only part with the given text |
| `App.ReplyText` | App.tsx:59-75 | the tutor turn's text is the response text, the no-response text when the API sent none, or the snag apology on failure; never empty |
| `App.NudgesAlwaysSend` | App.tsx:81-83 | the nudge texts override the typed input and always pass the send guard, with or without an image |
| `App.UserMessageOnWire` | App.tsx:44-60 | a dispatched user turn goes on the wire as role `user`, a non-empty text fragment, then the image's inline JPEG payload when one was selected |
| `App.Chat.constructor` | App.tsx:8-18 | the chat starts with exactly the greeting, empty input, no image, not loading, nothing outstanding |
| `App.Chat.NudgeEnabled` | App.tsx:173 | the nudge buttons (the same expression at App.tsx:180) are enabled exactly when the loading flag is off and the list holds at least two messages; each nudge passes the send guard whatever is typed |
| `App.Chat.SendEnabled` | App.tsx:217 | the send button is enabled exactly when the loading flag is off and the send guard passes on the typed input and image |
| `App.Chat.SetInputText` | App.tsx:210 | typing sets the input text and nothing else |
| `App.Chat.SetSelectedImage` | App.tsx:34 | choosing an image (App.tsx:34) or removing it with the preview's button (App.tsx:159, `None`) sets the selection and nothing else |
| `App.Chat.HandleSend` | App.tsx:40-60 | sends exactly when the guard passes. A send appends the user turn, clears input and image, sets loading, adds one outstanding request and returns the request built from the old messages plus the user turn. Otherwise nothing changes. Messages are only appended |
| `App.Chat.Resolve` | App.tsx:59-78 | appends exactly one assistant turn carrying the reply text or the snag apology, clears loading, leaves input and image alone; messages are only appended |
| `App.Chat.AskWhy` | App.tsx:81-83 | always sends the "why" text with any selected image, and clears the typed input it ignored |
| `App.Chat.AskNextStep` | App.tsx:179 | always sends the "next step" text with any selected image, and clears the typed input |
| `App.Chat.PressEnter` | App.tsx:211 | Enter runs the send path on the typed input whether or not a request is outstanding |
| `App.Chat.ClickSend` | App.tsx:215-217 | a click sends exactly when the send button is enabled, appending the user turn and clearing the input, otherwise nothing changes; from a state with at most one request outstanding and the loading flag showing it, it stays so; the outstanding count grows by one exactly when the click sends, and the request that goes out is the new message list serialised (none when nothing is sent) |
| `App.Chat.ClickWhy` | App.tsx:171-173 | a click sends the "why" text exactly when the nudges are enabled, otherwise nothing changes; from a state with at most one request outstanding and the loading flag showing it, it stays so; the outstanding count grows by one exactly when the click sends, and the request that goes out is the new message list serialised (none when nothing is sent) |
| `App.Chat.ClickNextStep` | App.tsx:178-180 | a click sends the "next step" text exactly when the nudges are enabled, otherwise nothing changes; from a state with at most one request outstanding and the loading flag showing it, it stays so; the outstanding count grows by one exactly when the click sends, and the request that goes out is the new message list serialised (none when nothing is sent) |
| `App.Chat.ResolveSerial` | App.tsx:76-78 | under the button discipline, resolution appends the tutor turn and returns the chat to idle with nothing outstanding, keeping the typed input and the selected image |
| `App.FirstExchange` | App.tsx:8-60 | from a fresh chat, sending a non-blank question puts exactly the greeting, as `model`, and the user's turn, as `user`, on the wire |
| `App.NudgesAfterFirstReply` | App.tsx:173 | the nudges are disabled on a fresh chat and enabled once a non-blank first question has been answered, whatever the reply |
| `App.EnterOverlaps` | App.tsx:211 | two Enter presses put two requests in flight; after the first resolves, loading is off with one request still outstanding |

## Left out

- The generative API call, client construction, API key, model name, system instruction, temperature and thinking budget (services/geminiService.ts:5-20, 46-56). The call's outcome is the `ApiReply` value passed to `Resolve`.
- Developer-console logging of API errors (services/geminiService.ts:60).
- components/MathRenderer.tsx: math typesetting is done by an external library, and the line splitting only produces markup.
- Image upload through the file reader (App.tsx:29-38): only its effect, setting the selected image to a data URL, is modelled, by `Chat.SetSelectedImage`.
- Auto-scrolling (App.tsx:23-27) and all markup and styling (App.tsx:85-229). From the markup, the model keeps the three buttons' `disabled` expressions (App.tsx:173, 180, 217; `NudgeEnabled`, `SendEnabled`) and these event handlers: the nudge and send clicks (App.tsx:172, 179, 216; `ClickWhy`, `ClickNextStep`, `ClickSend`), the input box's `onChange` and `onKeyPress` (App.tsx:210, 211; `SetInputText`, `PressEnter`) and the preview's remove button (App.tsx:159; `SetSelectedImage(None)`).
- Message ids, timestamps and the `isThinking` flag (types.ts:10-14, App.tsx:10, 13, 45, 51, 62, 65, 70, 73): constant or clock-derived, or unused.
- React's batched `setState` and the render-time `messages` closure (App.tsx:60): the model sends the current message list plus the new turn. Under overlapping sends the source may send an older list, without a turn appended since the last render.
- App.Chat.Resolve: requires a request to be outstanding. The source resolves only calls it made. A resolution is not tied to the request it answers, so which request each reply belongs to is not modelled.
- JsString.Trim: characters are Unicode scalar values, not UTF-16 code units as in JavaScript. This matters only for unpaired surrogates, which are never white space.
