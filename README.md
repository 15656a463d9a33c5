# chat-ui core in Dafny

A model of the logic in the chat-ui front end (a Next.js chat client for a
knowledge service on sacred texts). The rest of the repository is React
rendering. Six pieces are modelled:

- **The citation extractor** `parseSources` (`source_citations.dfy`, module
  `SourceCitations`). It splits an assistant answer at the fixed marker
  `"\n\n---\n\n**Sources:**\n"` into a trimmed body and the citation entries
  of the form `*   [location](source:id) (Confidence: n%)` found in the text after it.
  - The `/g` regex is a list of pattern items with a greedy matcher. It is
    proved equal to a backtracking reference semantics on every pattern whose
    repetitions are each followed by an excluded character, and the entry
    pattern is such a pattern.
  - The `while (exec ...)` loop is a method proved equal to a left-to-right
    scan, which drives the round-trip proof.
- **The theme registry** (`theme_registry.dfy`): the constant registry, the
  selectable domains, and `getTheme`. The lookup is given twice: once as
  written, where inherited `Object.prototype` names slip through (see
  Findings), and once as intended.
- **The theme loader** (`theme_loader.dfy`). A `Loader` class holds the theme
  cache (a `map`) and the preloaded asset keys (a `set`). It models `load`,
  `preloadAssets`, `preloadFont` (font name from the first quoted run, cache
  key, Google Fonts URL) and `preloadImage`.
- **`useChat().sendMessage`** (`use_chat.dfy`). A `ChatHook` class holds
  `messages` and `isLoading`. The method records every list `setMessages`
  would store, so the placeholder can be tracked chunk by chunk.
- **`handleSubmit` of the chat container** (`chat_container.dfy`). A
  `Container` class holds `mode`, `messages`, `input` and `isLoading`. Two
  lemmas pin down where this front end differs from the hook.
- **The `POST /api/chat` proxy route** (`chat_route.dfy`). It is one total
  function, from the parsed body, the configured URL and the upstream outcome
  to the reply and the upstream call.

Shared pieces:

- `text.dfy` holds the JavaScript built-ins the core uses: `trim` with the
  ECMAScript whitespace set, `indexOf`, integer `toString`, and `parseFloat`
  on digit-and-dot strings.
- `chat.dfy` holds the message record, the `messages.map` update, the chunk
  join and the outcome of a request.
- `options.dfy` holds `Option`.

The network is a parameter: an `Outcome` that is one of
- a rejected `fetch`;
- a non-ok response;
- a response without a body;
- a body read as a list of decoded chunks, ending normally or with a throwing read.

`Date.now()` readings are `nat` parameters rendered with `Decimal`. The route's
environment variable is an `Option<string>` parameter.

## Model

| member | source | states |
|---|---|---|
| Text.Trim | src/lib/parseSources.ts:19 | the result has no whitespace at either end and is no longer than the input |
| Text.TrimInfix | src/lib/parseSources.ts:19 | the trim is a contiguous piece of the input with only whitespace before and after it |
| Text.NotBlank | src/hooks/useChat.ts:79 | a string ending in a non-whitespace character does not trim to empty |
| Text.IndexOf | src/lib/parseSources.ts:13 | the result is -1 exactly when the pattern occurs nowhere; otherwise it is an occurrence with no earlier one |
| Text.DecimalInjective | src/components/chat/ChatContainer.tsx:24-53 | different clock readings give different id strings |
| Text.ParseFloat | src/lib/parseSources.ts:30 | `NaN` exactly when the text starts neither with a digit nor with a dot followed by a digit; every number read is non-negative |
| Text.ParseFloatOfDecimal | src/lib/parseSources.ts:30 | a confidence written as a whole number reads back as that number |
| Chat.ConcatPrefix | src/hooks/useChat.ts:58-66 | the text after the first k chunks is a prefix of the whole answer |
| Chat.SetContentAt | src/hooks/useChat.ts:69-75 | after the update, a message carrying the id has the new content and every other message is unchanged |
| Chat.SetContentTwice | src/hooks/useChat.ts:80-86 | a later update of the same id wins over an earlier one |
| Chat.SetContentAppend | src/hooks/useChat.ts:69-75 | messages whose ids differ from the updated one keep their place and contents |
| Chat.StreamStatesAt | src/hooks/useChat.ts:60-76 | after chunk k+1 the streamed message holds exactly the first k+1 chunks joined |
| UseChat.ChatHook.constructor | src/hooks/useChat.ts:9-10 | no messages and not loading |
| UseChat.ChatHook.SendMessage | src/hooks/useChat.ts:12-102 | the request carries the untrimmed content and the mode (`quick` by default); `isLoading` is true when the request is made and false at the end; the first two updates append the user message, then the empty placeholder; the reply updates follow: for a stream one per chunk, plus a final one only when it failed or was blank; otherwise the single final one |
| UseChat.ChatHook.AwaitReply | src/hooks/useChat.ts:34-99 | the placeholder ends with the answer, the empty-answer fallback or the apology; for a stream, the per-chunk updates come first; exactly one update per chunk plus one for a failed or blank stream, and one without a stream |
| UseChat.EveryUpdateSetsPlaceholder | src/hooks/useChat.ts:60-99 | every stored list differs from the placed one only in the placeholder; update k of a stream holds the first k+1 chunks joined, and the last holds the final content |
| UseChat.ChatHook.ReadStream | src/hooks/useChat.ts:57-76 | the accumulated text is the join of all chunks; update k holds the first k chunks joined in the placeholder |
| UseChat.UserIdIsNotAssistantId | src/hooks/useChat.ts:14-24 | the user id and the placeholder id never clash, whatever the clock says |
| UseChat.SendAppendsTwo | src/hooks/useChat.ts:13-32 | with a fresh placeholder id, exactly the user message and the assistant message are appended, and earlier messages keep order and contents |
| UseChat.StaleIdOverwritten | src/hooks/useChat.ts:69-75 | an earlier message already carrying the placeholder's id is overwritten with it |
| UseChat.FinalNeverBlank | src/hooks/useChat.ts:78-99 | the assistant message never ends blank |
| UseChat.FinalContentKeepsAnswer | src/hooks/useChat.ts:47-99 | a non-blank answer is kept untrimmed; a read that fails midway ends like a failed fetch, a non-ok response or a missing body |
| ChatContainer.Container.constructor | src/components/chat/ChatContainer.tsx:10-13 | quick mode, no messages, empty input, not loading |
| ChatContainer.Container.HandleSubmit | src/components/chat/ChatContainer.tsx:19-93 | blank input or a request in flight changes nothing; otherwise the request carries the trimmed input and the current mode, the input is cleared, `isLoading` is set for the request and cleared at the end, and the messages are the submit result |
| ChatContainer.Container.Submit | src/components/chat/ChatContainer.tsx:23-92 | the part after the guard: user message appended, input cleared, loading during the request, then the reply phase |
| ChatContainer.Container.AwaitReply | src/components/chat/ChatContainer.tsx:34-89 | appends the apology on a failed or non-ok request, nothing without a body, or the assistant message grown from the stream, plus the apology when a read throws |
| ChatContainer.Container.ReadStream | src/components/chat/ChatContainer.tsx:48-77 | the assistant text is the join of all chunks; after chunk k the list holds the first k+1 chunks in the assistant message, and only that message changes |
| ChatContainer.SubmitAppends | src/components/chat/ChatContainer.tsx:23-89 | with a fresh assistant id, a submit appends exactly the user message, then the apology, nothing, or the assistant message holding the whole answer (even an empty one), then the apology when a read fails |
| ChatContainer.EmptyAnswerDiffers | src/components/chat/ChatContainer.tsx:50-78 | on an empty stream the hook shows the fallback text while the container leaves its assistant message empty |
| ChatContainer.MidStreamFailureDiffers | src/components/chat/ChatContainer.tsx:79-89 | on a read that throws midway, the hook shows the apology in place of the partial answer (two messages added), while the container keeps the partial answer and adds a third, apology message |
| ChatRoute.Member | src/app/api/chat/route.ts:5 | a key is found exactly when the object has it, and the value found is that of the last member with the key, as `JSON.parse` keeps it |
| ChatRoute.Post | src/app/api/chat/route.ts:3-44 | the status is 200, 400 or 500; an upstream call happens exactly when the body is accepted and the URL configured; 400 exactly for a parsed non-null body with an invalid question; 200 exactly when the call is made and answered ok |
| ChatRoute.MalformedBodyIsServerError | src/app/api/chat/route.ts:40-43 | a body that is not JSON gives 500 with no upstream call |
| ChatRoute.InvalidQuestionRejected | src/app/api/chat/route.ts:7-9 | a missing, empty or non-string question gives 400 "Invalid question format" with no upstream call |
| ChatRoute.MissingUrlIsServerError | src/app/api/chat/route.ts:11-13 | with no configured URL a valid request gives 500 with no upstream call |
| ChatRoute.ValidQuestionForwarded | src/app/api/chat/route.ts:15-38 | one POST to URL + "/api/ask" with the question and the mode (`detailed` when absent); an ok upstream body is relayed unchanged with the stream headers, and every other upstream outcome gives 500 without its status |
| ChatRoute.FrontEndRequest | src/app/api/chat/route.ts:5-25 | a front-end request is rejected exactly when its question is empty (a whitespace-only one passes), and otherwise forwarded with its mode |
| ThemeRegistry.Find | src/themes/registry.ts:19 | an own property is found exactly when the key is registered, and it is that key's entry |
| ThemeRegistry.WithoutDefault | src/themes/registry.ts:14-16 | keeps exactly the keys other than `default` |
| ThemeRegistry.AvailableDomainsValue | src/themes/registry.ts:14-16 | the selectable domains are `mahabharata`, `bible`, `quran`, in declaration order |
| ThemeRegistry.AvailableDomainsRegistered | src/themes/registry.ts:7-16 | `default` is never selectable and every selectable domain is a registry key |
| ThemeRegistry.GetThemeRegistered | src/themes/registry.ts:7-20 | each registry key gets its own entry |
| ThemeRegistry.GetThemeId | src/themes/registry.ts:18-20 | a registered id gets the theme with that id; any other id, the empty one included, gets the default theme |
| ThemeRegistry.PrototypeMembersUnregistered | src/themes/registry.ts:7-12 | no inherited `Object.prototype` name is a registry key |
| ThemeRegistry.GetThemeAsWritten | src/themes/registry.ts:19 | the lookup as written returns a non-theme value exactly for the inherited names |
| ThemeRegistry.ConstructorIsNotATheme | src/themes/registry.ts:19 | the domain id `constructor` gets `Object` as written, and the default theme as intended |
| ThemeRegistry.AsWrittenAgrees | src/themes/registry.ts:18-20 | away from the inherited names the two lookups agree |
| ThemeLoader.NextQuote | src/themes/loader.ts:46 | the first quote at or after a position, with no quote before it |
| ThemeLoader.FontNameQuoted | src/themes/loader.ts:46 | the font name is the inside of the leftmost quoted run |
| ThemeLoader.FontNameUnquoted | src/themes/loader.ts:46 | without a quoted run the font name is the whole family string |
| ThemeLoader.QuotedFamilyName | src/themes/loader.ts:46 | a family list opening with a quoted name is named by it, whatever follows |
| ThemeLoader.ReplaceSpaces | src/themes/loader.ts:55 | every space becomes `+` and every other character stays, at the same position |
| ThemeLoader.FontHrefShape | src/themes/loader.ts:55 | the stylesheet URL is the fixed prefix, then the font name with spaces turned into `+`, then the fixed suffix |
| ThemeLoader.FontKeysMembers | src/themes/loader.ts:28-32 | the font keys are the heading's, the body's, and the code font's when it is present and non-empty |
| ThemeLoader.ImageUrlsMembers | src/themes/loader.ts:35-40 | the image URLs are the non-empty avatars and patterns |
| ThemeLoader.AssetKeysMembers | src/themes/loader.ts:26-43 | preloading a theme records exactly the font keys and the non-empty image URLs |
| ThemeLoader.Loader.constructor | src/themes/loader.ts:5-6 | both caches start empty |
| ThemeLoader.Loader.Load | src/themes/loader.ts:8-24 | always returns `getTheme` of the id; a hit changes nothing; a miss caches the theme under the requested id and adds the theme's asset keys; every cached theme stays the registry's answer for its key |
| ThemeLoader.Loader.PreloadAssets | src/themes/loader.ts:26-43 | adds exactly the theme's asset keys and leaves the theme cache alone |
| ThemeLoader.Loader.PreloadFonts | src/themes/loader.ts:28-32 | adds exactly the theme's font keys |
| ThemeLoader.Loader.PreloadImages | src/themes/loader.ts:35-42 | adds exactly the given URLs |
| ThemeLoader.Loader.PreloadFont | src/themes/loader.ts:45-58 | records the font key; on a fresh key it yields the stylesheet URL, and on a repeat it yields nothing |
| ThemeLoader.Loader.PreloadImage | src/themes/loader.ts:60-68 | records the URL and reports whether it was new |
| SourceCitations.RunEnd | src/lib/parseSources.ts:23 | a greedy run stops at the end of the text or at the first character outside its class |
| SourceCitations.MatchItemsGroups | src/lib/parseSources.ts:23 | a match has one group per capture, each a non-empty run of its class |
| SourceCitations.GreedySound | src/lib/parseSources.ts:23 | every greedy match is a match of the reference semantics |
| SourceCitations.GreedyComplete | src/lib/parseSources.ts:23 | on a pattern whose repetitions end at an excluded character, every reference match is the greedy one |
| SourceCitations.GreedyIsExact | src/lib/parseSources.ts:23 | on such patterns the greedy matcher and the reference semantics agree in both directions |
| SourceCitations.EntryPatternDetermined | src/lib/parseSources.ts:23 | every repetition in the entry regex is followed by a character it excludes |
| SourceCitations.EntryPatternCaptures | src/lib/parseSources.ts:23 | the entry regex captures a run without `]`, a run without `)` and a run of digits and dots |
| SourceCitations.MatchAt | src/lib/parseSources.ts:23-31 | a match ends after it starts and yields a well-formed citation: non-empty location without `]`, non-empty id without `)`, non-negative confidence |
| SourceCitations.AcceptedEntry | src/lib/parseSources.ts:23-31 | any reference match of the entry regex is what the matcher returns, with the three groups as location, id and confidence |
| SourceCitations.EntryMatch | src/lib/parseSources.ts:3-5 | an entry in the documented format matches, with its own location, id and confidence, and the match ends at the entry's end |
| SourceCitations.NoMatchWithoutStar | src/lib/parseSources.ts:23 | no match starts except at a `*` |
| SourceCitations.Exec | src/lib/parseSources.ts:23-26 | returns the leftmost match at or after `lastIndex` with its new `lastIndex`, or nothing when no match starts there |
| SourceCitations.ScanSkip | src/lib/parseSources.ts:26 | positions where no match starts contribute no citation |
| SourceCitations.ParseSources | src/lib/parseSources.ts:7-40 | the loop returns exactly the marker split and the left-to-right, non-overlapping matches after the marker; every citation is well-formed |
| SourceCitations.ParseSpec | src/lib/parseSources.ts:12-34 | every citation returned is well-formed |
| SourceCitations.NoMarkerKeepsText | src/lib/parseSources.ts:15-17 | without the marker the text comes back whole and untrimmed, with no sources |
| SourceCitations.FirstMarkerSplits | src/lib/parseSources.ts:13-20 | with the first marker at k, the content is the trimmed text before k and the sources are the ones after the marker |
| SourceCitations.ContentHasNoMarker | src/lib/parseSources.ts:13-19 | the content never contains the marker, so no body text is ever scanned |
| SourceCitations.ScanLinesAt | src/lib/parseSources.ts:22-32 | over rendered lines, the scan finds exactly the entry lines' citations, in order, and skips every other line |
| SourceCitations.BracketRunCrossesLines | src/lib/parseSources.ts:23 | a line opening `*   [` without a `]`, followed by an entry line, matches as one citation whose location spans the newline |
| SourceCitations.MarkerAfterCleanBody | src/lib/parseSources.ts:13 | after a clean body the first marker is the one that follows it |
| SourceCitations.NoNewlineClean | src/lib/parseSources.ts:12-13 | a body with no newline is clean |
| SourceCitations.RoundTrip | src/lib/parseSources.ts:3-34 | a clean body, the marker and rendered lines parse back to the trimmed body and exactly the entries, in order |
| SourceCitations.RoundTripTrimmed | src/lib/parseSources.ts:3-34 | for a trimmed clean body the body itself comes back |
| SourceCitations.MarkerFreeBodyNotEnough | src/lib/parseSources.ts:13-19 | a trimmed, marker-free body that ends in the marker without its last newline does not come back |

## Left out

- DOM effects are absent: the stylesheet link, `document.querySelector` and the `Image` object.
  `PreloadFont` returns the URL it would link and `PreloadImage` reports whether the URL was new.
- `fetch`, the stream reader and `TextDecoder` are replaced by the `Outcome` parameter, with chunks as decoded strings.
  Headers other than the reply's, and the request's `Content-Type`, are not modelled.
- `Date.now()` readings and `process.env.KNOWLEDGE_SERVICE_URL` are parameters.
  Message timestamps (`timestamp`, `createdAt`) are not modelled.
- React state updates are modelled as applied at once, in the order the code issues them.
  Batching, re-renders and two sends interleaving across `await` points are not modelled.
  A stale `isLoading` read by a second submit is also left out.
- Text.ParseFloat: `parseFloat` yields a double; the model reads the numeral as an exact non-negative rational, or `None` for `NaN`.
  Rounding to the nearest double is not modelled.
- The `catch` of `parseSources` (src/lib/parseSources.ts:35-39) is not modelled.
  Nothing in its `try` can throw on a string, and the model's functions are total.
- SourceCitations.RoundTrip: it requires a clean body (no marker starts inside the body in body + marker), not merely a marker-free body.
  The weaker assumption is false, as MarkerFreeBodyNotEnough shows.
- SourceCitations.EntryMatch: entries are rendered with three spaces after `*` and one space at each other `\s+`.
  Other whitespace runs are covered by AcceptedEntry and GreedyIsExact rather than by the round trip.
- SourceCitations.ScanLinesAt: non-entry lines contain no `*`.
  A position where no match starts contributes nothing (ScanSkip).
  Whether a match starts at a `*` can depend on the lines after it, because `[^\]]+` and `[^)]+` also match newlines.
  BracketRunCrossesLines shows an unclosed `[` line and the entry after it read as one citation.
- Theme colours, descriptions, animations, pattern opacities and metadata are not transcribed.
  Only the fields the loader reads, plus `id` and `name`, are.
- ThemeLoader.Loader.Load: it looks the id up with the corrected GetTheme, not with the `getTheme` of src/themes/registry.ts:19 as written.
  As written, `load("constructor")` caches the `Object` function under that id, and `preloadAssets` then throws reading `theme.fonts.heading` (src/themes/loader.ts:28), so the promise rejects.
  Every later `load("constructor")` resolves to the cached `Object` from src/themes/loader.ts:10-11.
  ConstructorIsNotATheme states the as-written lookup; the loader's failure path is not modelled.
- useChatPersistence, ThemeProvider and every component's rendering are not part of this model.
- The chat container imports `ChatMessage` and `MessageMode` from src/types/chat.ts, which declares neither.
  The model uses the shared `Message` record for both front ends.
- The route reads its URL once when the module loads; the model takes it as a parameter of `Post`.
- The route answers 500, not 400, to a body that is not JSON.
  It never forwards a non-ok upstream status: every upstream failure is 500.
- `JSON.parse` is not modelled: `Post` takes the parsed body.
  A parsed body that is a string, number or array has no `question` and gives 400.
  A parsed `null` throws on destructuring and gives 500.

## Findings

| source | as written | input that shows it | evidently intended | confidence | as-written member | corrected member |
|---|---|---|---|---|---|---|
| src/themes/registry.ts:19 | `THEME_REGISTRY[domainId] \|\| THEME_REGISTRY.default` also finds names inherited from `Object.prototype`, which are truthy, so the fallback is skipped | `getTheme("constructor")` returns the `Object` function, not a theme | an unregistered id gets the default theme | not executed | ThemeRegistry.ConstructorIsNotATheme | ThemeRegistry.GetThemeId |
