# AI-Buddy reaction pipeline, modelled in Dafny

AI-Buddy is a macOS overlay of animated buddy characters. A timer captures the
screen text. The reaction engine fingerprints that text and skips a screen it
has just seen. Otherwise it asks a language model for one line `BUDDY_ID: message`,
parses the reply, and drops a message identical to the last one delivered. The
accepted `(buddyID, message)` goes to the message router, which calls the handler
registered for that buddy, if there is one. The dock lists the buddies and
opens a buddy's window on a click. When another buddy is current, it first asks
whether to switch.

This project models three parts and proves their properties:

- `reaction_engine.dfy` (module `Reaction`) holds the fingerprint, the reply
  parser, and the engine's two fields `lastFingerprint` and `lastResponse`.
  Pure functions `Begin`, `Complete` and `Step` specify the engine. Class
  `ReactionEngine` implements it with early-return methods. `Analyze` is the part
  of `analyze` that runs in the caller. `HandleResponse` is the network callback.
- `buddy_messenger.dfy` (module `Messenger`) holds the router. It is a class over
  a `map` from buddy id to handler. Handlers are opaque values of a type
  parameter. A handler call is returned as a `Delivery`. Replay functions
  `Final` (the map) and `Calls` (the handler calls) give the meaning of a
  sequence of router calls.
- `buddy_dock.dfy` (module `Dock`) holds the click transition on the bindings
  `openBuddies` and `currentBuddyID`, and the dock's visibility filter.
- `text.dfy` (module `Text`) models the Swift string operations the engine uses.
  These are the whitespace test, `lowercased()`, `prefix`, `filter`,
  `trimmingCharacters(in: .whitespacesAndNewlines)` and
  `split(separator: ":", maxSplits: 1)`. That split drops empty pieces by default.
- `buddy.dfy` holds the `Buddy` record; `options.dfy` holds the optional type.

The network round trip is an input. `setupOk` says whether the request URL and
the JSON request body could be built. The reply is the text at `candidates[0].content.parts[0].text` of the
response envelope. It is `None` when there is no response data, when the data
is not a JSON object, or when the envelope has no such text. The switch
question's answer is the input `confirmSwitch`. The window manager's `open` and
`close` calls are returned as `WindowEffect` values.

Three details of the code are easy to misread:

- The reply is not simply split at its first colon. Swift's `split` omits empty
  pieces, so leading colons are skipped without using up the split.
  `":leo: hi"` gives `leo` and `hi`. `"leo:"` and `":x"` give one piece each, so
  both are malformed.
- `lastFingerprint` is recorded for every screen that is not skipped. This
  includes cycles whose request or reply then fails. It is not recorded only
  for accepted cycles.
- The fingerprint and the reply parser use two different whitespace sets.
  `filter { !$0.isWhitespace }` removes Unicode White_Space characters.
  `trimmingCharacters(in: .whitespacesAndNewlines)` also drops U+200B ZERO
  WIDTH SPACE. `Text.IsWhitespace` models the first set and
  `Text.IsSpaceOrNewline` the second.

## Model

| member | source | states |
|---|---|---|
| Text.IsWhitespace | AIReactionEngine.swift:21 | `Character.isWhitespace`: on ASCII exactly space, tab, line feed, vertical tab, form feed and carriage return; never a colon or a letter A–Z |
| Text.IsSpaceOrNewline | AIReactionEngine.swift:84 | `.whitespacesAndNewlines`, written from CoreFoundation's whitespace and newline sets, holds exactly for the White_Space characters and U+200B |
| Text.LowerChar | AIReactionEngine.swift:21 | a letter A–Z becomes the letter at the same place in a–z; every other character is kept; the result is never in A–Z |
| Text.Lower | AIReactionEngine.swift:21 | lower-casing keeps the length and lower-cases each character in place |
| Text.LowerAppend | AIReactionEngine.swift:21 | lower-casing a concatenation gives the concatenation of the lower-cased parts |
| Text.LowerOfWhitespace | AIReactionEngine.swift:21 | lower-casing leaves whitespace unchanged |
| Text.Prefix | AIReactionEngine.swift:21 | the prefix is a prefix of the text, of length n or the whole text when it is shorter |
| Text.RemoveWhitespace | AIReactionEngine.swift:21 | the filtered text is no longer than the input, contains no whitespace and only characters of the input, and is the input itself when the input has no whitespace |
| Text.RemoveWhitespaceAppend | AIReactionEngine.swift:21 | filtering a concatenation gives the concatenation of the filtered parts, with order kept |
| Text.RemoveWhitespaceOfBlank | AIReactionEngine.swift:21 | whitespace alone filters to the empty text |
| Text.RemoveWhitespaceDropsBlank | AIReactionEngine.swift:21 | a run of whitespace anywhere in a text makes no difference to the filtered text |
| Text.RemoveWhitespaceOfWords | AIReactionEngine.swift:21 | two whitespace-free words, each followed by whitespace, filter to the two words run together |
| Text.TrimStart | AIReactionEngine.swift:84 | the result is a suffix of the text that does not start with a space or newline of `.whitespacesAndNewlines`, and everything dropped is one |
| Text.TrimEnd | AIReactionEngine.swift:84 | the result is a prefix of the text that does not end with a space or newline, and everything dropped is one |
| Text.TrimStartPadded | AIReactionEngine.swift:84 | spaces and newlines in front of a text that does not start with one are dropped exactly |
| Text.TrimEndPadded | AIReactionEngine.swift:84 | spaces and newlines after a text that does not end with one are dropped exactly |
| Text.Trim | AIReactionEngine.swift:84 | the trimmed text has no space or newline at either end, contains only characters of the input, and is empty exactly when the input is all spaces and newlines |
| Text.TrimPadded | AIReactionEngine.swift:84 | trimming any padding of spaces and newlines off a trimmed core gives back exactly that core |
| Text.TrimIdempotent | AIReactionEngine.swift:84 | trimming twice is trimming once |
| Text.LeadingSeparators | AIReactionEngine.swift:84 | counts the colons the text starts with: those characters are colons and the next one is not |
| Text.FirstSeparator | AIReactionEngine.swift:84 | the index of the first colon: no colon before it, and a colon at it unless it is the text's length |
| Text.SplitOnce | AIReactionEngine.swift:84 | at most two pieces, none empty, the first without colon. After the leading colons the text is the first piece, a colon and the second piece; with one piece it is that piece and at most one colon |
| Text.SplitOnceEmpty | AIReactionEngine.swift:84 | a text has no pieces exactly when it is all colons |
| Text.SplitAtFirst | AIReactionEngine.swift:84 | a text that starts with a non-colon is cut at its first colon: one or two non-empty pieces, the first without colon, which joined back with the colon give the text |
| Text.SplitOnceAfterLead | AIReactionEngine.swift:84 | leading colons in front of a text that does not start with a colon do not change its pieces |
| Text.SplitAtFirstJoined | AIReactionEngine.swift:84 | a colon-free head, a colon and a non-empty rest are cut into exactly the head and the rest |
| Text.SplitOnceJoined | AIReactionEngine.swift:84 | splitting any run of leading colons, one colon-free head, a colon and a non-empty rest gives back exactly the head and the rest |
| Text.LeadingSeparatorsOf | AIReactionEngine.swift:84 | n colons in front of a text that does not start with a colon count as n leading separators |
| Text.FirstSeparatorOf | AIReactionEngine.swift:84 | the first colon of a colon-free head followed by a colon is at the head's length |
| Reaction.Fingerprint | AIReactionEngine.swift:20-22 | the fingerprint has at most 350 characters, none of them whitespace or a letter A–Z |
| Reaction.FingerprintIgnoresTail | AIReactionEngine.swift:21 | appending anything to a text of at least 350 characters does not change its fingerprint |
| Reaction.FingerprintSamePrefix | AIReactionEngine.swift:21 | two texts with the same first 350 characters have the same fingerprint |
| Reaction.FingerprintIgnoresCase | AIReactionEngine.swift:21 | lower-casing a text first does not change its fingerprint |
| Reaction.FingerprintIgnoresWhitespace | AIReactionEngine.swift:20-22 | within the first 350 characters, inserting a run of whitespace anywhere does not change the fingerprint |
| Reaction.FingerprintKeeps | AIReactionEngine.swift:20-22 | a text of at most 350 characters without whitespace has as fingerprint exactly the text lower-cased, so no other character is dropped |
| Reaction.FingerprintIdempotent | AIReactionEngine.swift:20-22 | a fingerprint is its own fingerprint |
| Reaction.FingerprintExampleCase | AIReactionEngine.swift:20-22 | "Hello World" has the fingerprint "helloworld" |
| Reaction.FingerprintExampleSpacing | AIReactionEngine.swift:20-22 | "hello   world   " has the fingerprint "helloworld" |
| Reaction.Components | AIReactionEngine.swift:84 | one component per piece of the split, at most two, each exactly its piece trimmed, so each is trimmed and no longer than its piece, and the first has no colon |
| Reaction.ParseReply | AIReactionEngine.swift:84-88 | a reply parses exactly when it splits into two pieces. The event is then the two trimmed pieces: both trimmed, the buddy id without colon |
| Reaction.ParseReplyWellFormed | AIReactionEngine.swift:84-88 | leading colons, a padded id, a colon and a padded message parse to that id and message. The id is any text and is not checked against the buddy list |
| Reaction.ParseReplyFocused | AIReactionEngine.swift:84-88 | "leo: Great focus today!" parses to the event (leo, "Great focus today!") |
| Reaction.ParseReplyLeadingSeparator | AIReactionEngine.swift:84 | ":leo: hi" parses to (leo, hi): the leading colon does not use up the split |
| Reaction.ParseReplySecondSeparator | AIReactionEngine.swift:84 | "leo::hi" parses to (leo, ":hi"): only one split is made |
| Reaction.ParseReplyBlankMessage | AIReactionEngine.swift:84-88 | "leo:   " parses to leo with an empty message, because trimming comes after splitting |
| Reaction.ParseReplyZeroWidthSpace | AIReactionEngine.swift:84-88 | "leo:\u{200B}hi" parses to (leo, hi): trimming drops the zero width space |
| Reaction.ParseReplyOnePiece | AIReactionEngine.swift:84-86 | leading colons, a colon-free piece and at most one trailing colon do not parse |
| Reaction.ParseReplyTrailingSeparator | AIReactionEngine.swift:84-86 | "leo:" does not parse |
| Reaction.ParseReplyLonePiece | AIReactionEngine.swift:84-86 | ":x" does not parse |
| Reaction.ParseReplyNoSeparator | AIReactionEngine.swift:84-86 | a reply without colon does not parse |
| Reaction.ParseReplyNoSeparatorExamples | AIReactionEngine.swift:84-86 | "malformed text" and the empty reply do not parse |
| Reaction.Begin | AIReactionEngine.swift:25-65 | afterwards lastFingerprint is always this screen's fingerprint and lastResponse is unchanged. The call is skipped with no state change exactly when the fingerprint equals lastFingerprint. A request is made exactly when it is not skipped and the setup succeeds |
| Reaction.Complete | AIReactionEngine.swift:73-104 | lastFingerprint is untouched. Missing envelope text, a reply that does not parse, and a message equal to lastResponse each give no event and leave the state alone, each in exactly its own case. Otherwise the parsed event is delivered and becomes lastResponse |
| Reaction.BeginAll | AIReactionEngine.swift:25-65 | a sequence of synchronous analyze calls never changes lastResponse, and leaves the last screen's fingerprint recorded |
| Reaction.CompleteSameReplyTwice | AIReactionEngine.swift:91-96 | two in-flight requests that get the same reply deliver it at most once, whatever sequence of synchronous analyze calls came in between |
| Reaction.Step | AIReactionEngine.swift:24-108 | one cycle delivers exactly when the screen is new, the setup succeeds, the reply parses and its message differs from lastResponse. The event is the parsed reply. lastFingerprint is the screen's, and lastResponse changes only on delivery |
| Reaction.StepRepeatIsNoOp | AIReactionEngine.swift:25-33 | a second call with the same screen is skipped and changes nothing, even when the first request failed |
| Reaction.StepRepeatedReplySuppressed | AIReactionEngine.swift:91-94 | after a delivery, a new screen that gets the same reply is skipped as a duplicate, and only its fingerprint is recorded |
| Reaction.StepExampleFocus | AIReactionEngine.swift:84-99 | a fresh engine delivers (leo, "Great focus today!") once, then suppresses the same reply for another screen |
| Reaction.StepExampleMalformed | AIReactionEngine.swift:86-104 | the reply "malformed text" yields no event and leaves lastResponse unchanged |
| Reaction.StepUnknownBuddyDelivered | AIReactionEngine.swift:87-99 | a reply naming a buddy id that no buddy has ("rex") is delivered all the same |
| Reaction.ReactionEngine.constructor | AIReactionEngine.swift:16-17 | both fields start empty |
| Reaction.ReactionEngine.Analyze | AIReactionEngine.swift:24-65 | changes only lastFingerprint, and fields and outcome are those of Begin |
| Reaction.ReactionEngine.HandleResponse | AIReactionEngine.swift:72-105 | changes only lastResponse, and fields and outcome are those of Complete |
| Reaction.ReactionEngine.AnalyzeAndHandle | AIReactionEngine.swift:24-108 | fields and outcome are those of Step |
| Messenger.Registered | BuddyMessenger.swift:9-11 | the id now maps to the new handler, replacing any earlier one. No other key is added or removed, and every other id keeps its handler |
| Messenger.Unregistered | BuddyMessenger.swift:13-15 | the id has no handler afterwards, every other entry is unchanged, and an absent id leaves the map as it was |
| Messenger.Deliver | BuddyMessenger.swift:17-20 | a handler is called exactly when the id has one. It is that id's handler, called with the message |
| Messenger.UnregisterUndoesRegister | BuddyMessenger.swift:9-15 | unregistering an id that had no handler before its registration restores the map |
| Messenger.Apply | BuddyMessenger.swift:9-20 | a register maps its id to its handler, an unregister removes its id, and a post calls the id's handler with the message exactly when the id has one. A post never changes the map, register and unregister call no handler, and no request changes the entry of an id it does not name |
| Messenger.Final | BuddyMessenger.swift:7-15 | every handler in the map after a sequence of calls was there from the start or was registered for that id by one of the calls |
| Messenger.Calls | BuddyMessenger.swift:17-20 | the handler calls of a sequence are those of its prefix followed by at most one more, so each request makes at most one call and none is reordered |
| Messenger.PostAfter | BuddyMessenger.swift:17-20 | a post after any sequence of calls keeps the map, and adds exactly one call of the id's current handler with the message, or none when the id has no handler then |
| Messenger.PostsKeepListeners | BuddyMessenger.swift:17-20 | any number of posts leaves the map unchanged |
| Messenger.UntouchedKeepsEntry | BuddyMessenger.swift:9-15 | calls that do not register or unregister an id leave its entry, present or absent, as it was |
| Messenger.RegistrationHolds | BuddyMessenger.swift:9-15 | after registering h for an id, the id maps to h through any calls that do not register or unregister it |
| Messenger.LastRegistrationWins | BuddyMessenger.swift:9-20 | after registering handler h for an id, a later post to that id calls h with the message, whatever calls on other ids come between |
| Messenger.PostIsNotQueued | BuddyMessenger.swift:17-20 | a post to an id without handler calls nothing, and a handler registered afterwards does not receive it |
| Messenger.BuddyMessenger.constructor | BuddyMessenger.swift:7 | the router starts with no handlers |
| Messenger.BuddyMessenger.Register | BuddyMessenger.swift:9-11 | the map afterwards is the old map with the id's handler replaced |
| Messenger.BuddyMessenger.Unregister | BuddyMessenger.swift:13-15 | the map afterwards is the old map without the id |
| Messenger.BuddyMessenger.Post | BuddyMessenger.swift:17-20 | changes nothing, and returns the id's handler called with the message, or no call |
| Dock.Shows | BuddyDock.swift:16 | every buddy is shown when the dock is expanded; otherwise exactly the buddies whose window is not open |
| Dock.ShownBuddies | BuddyDock.swift:15-16 | a buddy is listed exactly when it is in the directory and either not open or the dock is expanded. An expanded dock lists every buddy in order |
| Dock.ShownBuddiesAppend | BuddyDock.swift:15-16 | listing keeps the directory order |
| Dock.HandleClick | BuddyDock.swift:60-84 | the clicked id is open afterwards, and some buddy is current. The switch question is asked exactly when another buddy is current. Without a question the clicked id is inserted and becomes current. A "Yes" closes the current window, and then exactly the clicked buddy is open and current. A "No" inserts the clicked id, keeps the current buddy, and loses no open id |
| Dock.ClickKeepsCurrentOpen | BuddyDock.swift:60-84 | if the current buddy is open before a click, the current buddy is open after it |
| Dock.ClickHidesClicked | BuddyDock.swift:16 | after a click the clicked buddy is not listed in the collapsed dock |
| Dock.ClickCurrentAgain | BuddyDock.swift:79-83 | clicking the open current buddy asks nothing and changes neither binding |
| Dock.BuddyDock.constructor | BuddyDock.swift:4-8 | the dock holds the given buddies and bindings |
| Dock.BuddyDock.Shown | BuddyDock.swift:15-16 | the dock lists a buddy exactly when it is in the directory and its window is not open or the dock is expanded; expanded, it lists every buddy |
| Dock.BuddyDock.HandleBuddyClick | BuddyDock.swift:60-84 | the bindings, the question and the window calls are those of HandleClick. It changes only openBuddies and currentBuddyID |
| Dock.BuddyDock.ToggleExpanded | BuddyDock.swift:44-46 | the expand button flips expanded |

## Left out

- Loading the API key from Secrets.plist, and its `fatalError`, are bundle I/O and not modelled.
- The prompt text is free text with no behaviour, and is not modelled.
- The HTTP request, the request body's JSON, `URLSession` and the parsing of the
  response envelope are not modelled. They appear only as the `setupOk` input and
  the optional reply text.
- Logging (`print`) is not modelled. Each log line of the engine is an `Outcome` value.
- `DispatchQueue.main.async` is not modelled. The completion call is the
  `Delivered` outcome, returned at once.
- Concurrent access to the engine's fields and to the router's map, from the
  timer and the network callbacks, is not modelled. The model is sequential,
  but `Analyze` and `HandleResponse` are separate methods, so any interleaving
  of calls and replies can be expressed.
- Text.LowerChar: `lowercased()` is modelled for the Latin capitals A–Z only.
  Other capitals such as 'É' are kept, where Swift gives 'é'.
- Text.Lower: lower-casing is modelled character by character on A–Z only, so
  it always keeps the length. Swift's full case mapping also changes other
  capitals, and can lengthen a string: "İ" becomes two scalars.
- Reaction.Fingerprint: it inherits the A–Z lower-casing of Text.Lower, so the
  350 bound and the "no letter A–Z" result are proved for that mapping only.
- String equality is code-point equality in the model. Swift compares and hashes
  `String` by Unicode canonical equivalence, so "caf\u{E9}" and "cafe\u{301}" are
  equal there and different here. This affects the same-screen and duplicate
  tests of the engine (AIReactionEngine.swift lines 28 and 91), the router's
  dictionary keys, and the dock's `openBuddies` set and its comparisons of buddy
  ids (BuddyDock.swift lines 16, 62, 77 and 81). With lastResponse "caf\u{E9}",
  Swift suppresses the reply "leo: cafe\u{301}" as a duplicate, but the model
  delivers it.
- Text.IsWhitespace: a Dafny `char` stands for one Swift `Character`. Grapheme
  clusters such as "\r\n" or a letter with a combining mark are single
  characters in Swift, and are not modelled as such.
- `NSAlert` is not modelled; its answer is the `confirmSwitch` input.
  `BuddyWindowManager` is not modelled; its calls are returned as effects.
- The dock's frame sizes, spacing and animation are layout and not modelled.
- ContentView.swift is not modelled. It covers window and drag layout,
  persistence of positions and open ids, the 8-second timer, the call of
  `post` from the engine's completion, and a background loop that re-reads
  buddies.json every 2 seconds and replaces the buddy list when it holds ids
  that were not there when the loop started. BuddyCard.swift is not modelled either; it
  is a view that registers on appear and unregisters on close.
