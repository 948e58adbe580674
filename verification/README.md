# Client-side list synchronisation of the school website, in Dafny

This project models the browser side of a small school website: the hooks
and components that keep in-memory lists of `_id`-keyed records current from
an initial HTTP snapshot and a stream of realtime `created` / `updated` /
`deleted` events, together with the small pure helpers around them. These are
the keyword chat assistant, the notification list and listener registry of
the socket provider, the fetch-once guard of `useApi`, the announcement slider
and the star-rating string.

Everything is a pure function over immutable values. Network replies,
socket deliveries, timer expiries and `Date.now()` values are inputs.

Layout, one module per file:

- `common.dfy` (`Common`): `Option`, `Result`, and `Record`, a plain object
  with an optional `_id` (`docId`) and an optional plain `id`. An absent
  property is `None`, and `undefined === undefined` holds, so `==` on these
  keys is JavaScript's `===`.
- `keyed.dfy` (`Keyed`): the generic list reducers, which are front/back insertion,
  `map`-style replacement by key, and `filter`-style removal by key.
- `sync.dfy` (`Sync`): typed change events, the dispatch on event names, and
  logs of events applied in delivery order.
- `collection_hooks.dfy` (`CollectionHooks`): `useAnnouncements` and `useSchools`.
- `realtime_data.dfy` (`RealtimeData`): `useRealtimeData`.
- `api.dfy` (`Api`): `useApi`.
- `reviews.dfy` (`Reviews`): the reviews component.
- `socket_context.dfy` (`SocketContext`): the socket provider.
- `chatbot.dfy` (`Chatbot`): the chat assistant. `getBotResponse` is split into
  `TopicOf`, the branch its if-chain takes, and `ReplyText`, the string that
  branch returns.
- `slider.dfy` (`Slider`): the announcement slider.
- `text.dfy` (`Text`): the JavaScript string operations used above
  (`${n}`, `trim`, `toLowerCase`, `includes`, `repeat`).

Created handlers insert without checking: the client has no reconciliation
of optimistic local entries and no duplicate suppression, and
`Sync.CreatedTwiceDuplicates` proves that a record delivered twice appears
twice.

## Model

| member | source | states |
|---|---|---|
| Keyed.ReplaceByKey | client/src/hooks/useRealtimeData.js:69-76 | the list keeps its length; every position whose key equals the update's key holds the update; every other position is unchanged |
| Keyed.RemoveByKey | client/src/hooks/useRealtimeData.js:78-83 | no item with the key remains; every other item keeps its multiplicity; the result is a subsequence of the input (order kept) and never longer |
| Keyed.RemoveAbsentKey | client/src/hooks/useRealtimeData.js:78-83 | deleting a key no item carries leaves the list exactly as it was |
| Keyed.RemoveIdempotent | client/src/hooks/useAnnouncements.js:37-42 | a repeated deletion of the same id changes nothing more |
| Keyed.RemoveCount | client/src/hooks/useSchools.js:35-40 | a deletion shortens the list by exactly the number of items carrying the id |
| Keyed.ReplaceKeepsCounts | client/src/hooks/useSchools.js:26-33 | an update never changes how many items carry any given id |
| Keyed.ReplaceIdempotent | client/src/hooks/useAnnouncements.js:28-35 | applying the same update twice is applying it once |
| Keyed.ReplaceKeepsKeys | client/src/hooks/useRealtimeData.js:69-76 | an update keeps every id that occurs and introduces none |
| Sync.ApplyCreated | client/src/hooks/useRealtimeData.js:64-67 | a created record makes the list one longer: at the front with the old list after it, or (schools) at the end with the old list as prefix |
| Sync.ApplyUpdated | client/src/hooks/useAnnouncements.js:28-35 | length kept; positions whose `_id` equals the update's `_id` become the update, all others unchanged |
| Sync.ApplyDeleted | client/src/hooks/useAnnouncements.js:37-42 | no item's `_id` equals the payload's `id`; other items keep multiplicity and order; never longer |
| Sync.Deliver | client/src/hooks/useRealtimeData.js:64-88 | an event whose name is the created, updated or deleted name runs that handler on the list (in that order of precedence); any other name leaves the list as it was |
| Sync.Classify | client/src/hooks/useRealtimeData.js:85-88 | an event is routed to the created, updated or deleted handler by its name; a name that is none of the three reaches no handler |
| Sync.UpdateKeepsAbsence | client/src/hooks/useRealtimeData.js:69-76 | an update cannot bring back an `_id` that is absent from the list |
| Sync.AbsencePersists | client/src/hooks/useRealtimeData.js:64-83 | once an `_id` is absent, any log of events without a creation of that `_id` keeps it absent |
| Sync.LastDeleteWins | client/src/hooks/useRealtimeData.js:64-83 | if a deletion of `_id` k is not followed by a creation of k, the final list has no item with `_id` k, whatever the earlier events and later updates |
| Sync.CreateUpdateDeleteLeavesNoTrace | client/src/hooks/useAnnouncements.js:23-42 | create, update, then delete of one record, applied in delivery order, leave no item with its `_id` |
| Sync.CreatedTwiceDuplicates | client/src/hooks/useAnnouncements.js:23-26 | created events are not deduplicated: the same record delivered twice adds two items with its `_id` |
| Sync.CountAfterCreate | client/src/hooks/useSchools.js:21-24 | a created record adds one occurrence of its own `_id` and none of any other id, at either end |
| CollectionHooks.Snapshot | client/src/hooks/useAnnouncements.js:11-15 | a non-null snapshot, even an empty array, replaces the list wholesale; a null snapshot leaves it unchanged |
| CollectionHooks.Fetch | client/src/hooks/useSchools.js:6-14 | the first fetch copies a successful non-null `data` into the list and otherwise leaves the list alone; a later unforced fetch changes nothing |
| CollectionHooks.OnAnnouncementEvent | client/src/hooks/useAnnouncements.js:18-55 | while disconnected nothing changes; `announcement_created` prepends, `_updated` replaces in place, `_deleted` filters by `id`; other names change nothing |
| CollectionHooks.OnSchoolEvent | client/src/hooks/useSchools.js:16-51 | while disconnected nothing changes; `school_created` appends at the end, `_updated` replaces in place, `_deleted` filters by `id`; other names change nothing |
| CollectionHooks.AnnouncementCreateThenDelete | client/src/hooks/useAnnouncements.js:23-42 | a created announcement followed by the deletion of its `_id` leaves no announcement with that `_id` |
| CollectionHooks.SchoolCreateThenDelete | client/src/hooks/useSchools.js:21-40 | a created school followed by the deletion of its `_id` leaves no school with that `_id` |
| CollectionHooks.AnnouncementLog | client/src/hooks/useAnnouncements.js:44-47 | a connected hook fed a sequence of events ends where the corresponding change log, applied in order, ends |
| RealtimeData.ReadConfigAsWritten | client/src/hooks/useRealtimeData.js:28 | the table read is `undefined` exactly for names that are neither own keys nor inherited `Object.prototype` members |
| RealtimeData.CheckConfigAsWritten | client/src/hooks/useRealtimeData.js:28-32 | as written, the guard throws exactly when the read is `undefined` |
| RealtimeData.InheritedNamePassesGuard | client/src/hooks/useRealtimeData.js:28-32 | the unsupported name `toString` passes the guard without any configuration entry |
| RealtimeData.LookupConfig | client/src/hooks/useRealtimeData.js:13-32 | success exactly for `announcements` and `schools`, with the type name as endpoint; every other name fails with `Unsupported data type: <name>` |
| RealtimeData.ConfigNamedAfterType | client/src/hooks/useRealtimeData.js:13-26 | a supported plural `<singular>s` listens to `<singular>_created`, `<singular>_updated` and `<singular>_deleted` |
| RealtimeData.LookupRefinesAsWritten | client/src/hooks/useRealtimeData.js:13-32 | the corrected lookup agrees with the as-written read on supported names and rejects exactly the names that are missing or only inherited |
| RealtimeData.MountAsWritten | client/src/hooks/useRealtimeData.js:4-32 | as written, mounting throws `Unsupported data type: <name>` exactly for names that are neither table keys nor inherited `Object.prototype` members; any other name mounts with an empty list, loading on and no error |
| RealtimeData.Mount | client/src/hooks/useRealtimeData.js:4-32 | corrected mount (built on the corrected `RealtimeData.LookupConfig`): every type but `announcements` and `schools` throws before any state exists; a supported one starts with an empty list, loading on and no error |
| RealtimeData.MountRefinesAsWritten | client/src/hooks/useRealtimeData.js:28-32 | the corrected and as-written mounts agree on the supported types and differ exactly on the inherited names, which mount as written |
| RealtimeData.FetchData | client/src/hooks/useRealtimeData.js:34-56 | loading is off afterwards; success with data stores that data and no error; any failure, including success without data, stores the fixed message and an empty list |
| RealtimeData.FetchForgetsPriorState | client/src/hooks/useRealtimeData.js:36-52 | the state after a fetch depends only on the reply, so an earlier error or list never survives a new attempt |
| RealtimeData.OnEvent | client/src/hooks/useRealtimeData.js:59-97 | without a socket or connection nothing changes; the configured created name prepends, updated replaces, deleted filters; loading and error untouched |
| Api.HttpErrorMessage | client/src/hooks/useApi.js:21-23 | the message is `HTTP `, the shortest decimal form of the status (digits whose value is the status, no leading zero), `: ` and the status text |
| Api.FailureMessage | client/src/hooks/useApi.js:30 | a non-empty server message is used as is; an absent or empty one becomes `Request failed` |
| Api.Start | client/src/hooks/useApi.js:14-16 | starting sets loading, clears the error, marks the fetch as done and keeps the data |
| Api.Finish | client/src/hooks/useApi.js:19-38 | loading ends; no error exactly on success, which stores `result.data`; each failure (rejection, non-ok status, bad JSON, `success` false) stores its own message and nulls the data |
| Api.FetchData | client/src/hooks/useApi.js:9-39 | fetched and not forced: the state is returned unchanged; otherwise start then finish with the exchange |
| Api.FetchOnce | client/src/hooks/useApi.js:11 | once fetched, an unforced fetch changes nothing whatever the network would answer; two unforced fetches from the start equal one |
| Api.Refetch | client/src/hooks/useApi.js:45-48 | clearing the flag means the guard never stops a refetch: the result is a fresh start-and-finish on the current data, whatever the flag and the force option were |
| Api.RefetchAlwaysRuns | client/src/hooks/useApi.js:45-48 | a refetch always runs: afterwards the state reflects exactly the new exchange, whatever the state and options before |
| Reviews.OnMessage | client/src/components/Reviews.jsx:101-118 | an unparsable message changes nothing; `review_created` prepends the payload, `review_updated` replaces by `_id`, `review_deleted` filters by `payload.id`; other types change nothing |
| Reviews.Stars | client/src/components/Reviews.jsx:245 | a rating in 0..5 renders as five characters, the first `rating` filled and the rest empty; any other rating makes `repeat` throw |
| Reviews.StarsRoundTrip | client/src/components/Reviews.jsx:245-246 | counting the filled stars of a rendering gives back the rating |
| Reviews.HandleChange | client/src/components/Reviews.jsx:56-61 | the named field takes the string value; every other field and the rest of the state are unchanged |
| Reviews.ChangesCommute | client/src/components/Reviews.jsx:56-61 | a later edit of the same field wins; edits of different fields commute |
| Reviews.OpenModal | client/src/components/Reviews.jsx:63-65 | the modal opens and nothing else changes |
| Reviews.CloseModal | client/src/components/Reviews.jsx:67-71 | the modal is closed, the form reset to name '', rating 5, comment '', the error cleared, the list untouched |
| Reviews.OpenEditCloseFromStart | client/src/components/Reviews.jsx:5-13 | a fresh section has no reviews, is loading and has the modal closed; opening, editing a field and closing returns it exactly to that start |
| Reviews.CloseForgetsEdits | client/src/components/Reviews.jsx:67-71 | closing erases any edit, and closing twice is closing once |
| Reviews.HandleSubmit | client/src/components/Reviews.jsx:37-54 | success resets and closes the form; a refused or failed post sets its message; the list is never modified locally |
| Reviews.FetchReviews | client/src/components/Reviews.jsx:19-34 | success replaces the list; a refusal or throw sets its message and keeps the list; loading ends either way |
| SocketContext.AddNotification | client/src/context/SocketContext.js:58-60 | exactly one entry is appended after the unchanged old list, with the given id and message and type defaulting to `info` |
| SocketContext.RemoveNotification | client/src/context/SocketContext.js:68-70 | every entry with the id is removed; the others keep multiplicity and order |
| SocketContext.ExpiryUndoesAdd | client/src/context/SocketContext.js:58-65 | the timed expiry of a fresh id restores the list as it was before the addition; with a colliding id it removes more than the one entry |
| SocketContext.Emit | client/src/context/SocketContext.js:73-77 | without a socket nothing happens; with one the event is forwarded and nothing else changes |
| SocketContext.On | client/src/context/SocketContext.js:80-90 | without a socket nothing happens; with one the call is forwarded and the callback appended to its event's list, created if absent, other events untouched |
| SocketContext.Off | client/src/context/SocketContext.js:93-97 | without a socket nothing happens; with one the call is forwarded; the registry never changes |
| SocketContext.EmptyProviderMirrors | client/src/context/SocketContext.js:18 | the empty registry of a new provider mirrors its empty call history |
| SocketContext.OperationsKeepMirror | client/src/context/SocketContext.js:72-97 | `on`, `off` and `emit` keep the registry equal, per event, to the callbacks of all forwarded `on` calls |
| SocketContext.OffKeepsRegistration | client/src/context/SocketContext.js:84-97 | a callback registered and then removed with `off` is still in the registry |
| SocketContext.Connect | client/src/context/SocketContext.js:32-36 | connecting sets the flag and appends the success notification `Connected to real-time updates`; the socket, the registry and the forwarded calls are unchanged |
| SocketContext.Disconnect | client/src/context/SocketContext.js:38-41 | disconnecting clears the flag and nothing else |
| SocketContext.UseSocket | client/src/context/SocketContext.js:6-12 | outside a provider it throws `useSocket must be used within a SocketProvider`; inside it returns the provider |
| Chatbot.TopicOf | client/src/components/Chatbot.jsx:20-36 | a message taking a keyword branch really contains, once lower-cased, one of that branch's keywords |
| Chatbot.BotResponse | client/src/components/Chatbot.jsx:17-37 | the reply is always one of the eight fixed replies, the one of the message's topic |
| Chatbot.FirstMatch | client/src/components/Chatbot.jsx:20-36 | the reference classifier: the first category at or after k whose keyword occurs, every earlier one missing, or "none" |
| Chatbot.RepliesDistinct | client/src/components/Chatbot.jsx:20-36 | the eight replies are pairwise different, so a reply identifies its topic |
| Chatbot.TopicIsFirstMatch | client/src/components/Chatbot.jsx:17-37 | the if-chain classifies a message under the first category of the priority table whose keyword occurs in the lower-cased text, or as unknown when none does |
| Chatbot.PriorityOrder | client/src/components/Chatbot.jsx:20-33 | a message is classified under category k if and only if category k matches and no earlier category does |
| Chatbot.FallbackIffNoKeyword | client/src/components/Chatbot.jsx:34-36 | a message falls through every branch if and only if no keyword occurs in the lower-cased message |
| Chatbot.FallbackReplyIffUnknown | client/src/components/Chatbot.jsx:34-36 | the fallback text is returned exactly for the messages that fall through every branch |
| Chatbot.SameReplyIffSameTopic | client/src/components/Chatbot.jsx:17-37 | two messages get the same reply if and only if they take the same branch |
| Chatbot.CaseBlindReply | client/src/components/Chatbot.jsx:18-36 | two ASCII messages that differ only in letter case get the same reply |
| Chatbot.CaseInsensitive | client/src/components/Chatbot.jsx:18 | lower-casing the message first never changes the reply |
| Chatbot.SendMessage | client/src/components/Chatbot.jsx:39-51 | a blank input changes nothing and schedules nothing; otherwise the untrimmed text is appended as a user message, the input cleared, and the reply to that text scheduled |
| Chatbot.ReplyArrives | client/src/components/Chatbot.jsx:45-49 | the scheduled reply is appended as a bot message after whatever the list then holds |
| Chatbot.FirstExchange | client/src/components/Chatbot.jsx:5-15 | a fresh chat shows the two greetings and an empty input; the first non-blank question and its answer land right after the greetings |
| Chatbot.SendThenReply | client/src/components/Chatbot.jsx:39-51 | a non-blank send followed by its reply appends exactly two messages, the user's text and then the bot's answer to that text, and leaves the input empty |
| Text.NatToString | client/src/hooks/useApi.js:22 | the decimal form of a status is non-empty, all digits, without leading zero, and reads back as the status |
| Text.TrimEmptyIffBlank | client/src/components/Chatbot.jsx:40 | `trim()` yields the empty string exactly when every character is ECMAScript white space or a line terminator |
| Text.LeadingWhite | client/src/components/Chatbot.jsx:40 | the characters it counts at the start are all white space, and the next character, if any, is not |
| Text.TrailingWhite | client/src/components/Chatbot.jsx:40 | the characters it counts at the end are all white space, and the one before them, if any, is not |
| Text.TrimIsInnerSlice | client/src/components/Chatbot.jsx:40 | `trim()` yields the slice of the input that begins right after the leading white space |
| Text.Trim | client/src/components/Chatbot.jsx:40 | `trim()` is never longer than its input, and a non-empty result starts and ends with a non-white character |
| Text.LowerChar | client/src/components/Chatbot.jsx:18 | an ASCII capital becomes its small letter, any other ASCII character is kept, and no result (one or two characters) holds an ASCII capital |
| Text.ToLower | client/src/components/Chatbot.jsx:18 | lower-casing at most doubles the length, never shortens, and leaves no ASCII capital; on ASCII text it keeps the length and lower-cases each character in place |
| Text.ToLowerIdempotent | client/src/components/Chatbot.jsx:18 | lower-casing twice is lower-casing once |
| Text.IncludesIff | client/src/components/Chatbot.jsx:20 | `includes` holds exactly when the word occurs at some position |
| Text.Repeat | client/src/components/Reviews.jsx:245 | a non-negative count gives that many copies of the character; a negative count throws |
| Slider.ShowSlide | client/src/components/Announcements.jsx:29-31 | clicking a dot makes that slide current, whatever the current slide was |
| Slider.Tick | client/src/components/Announcements.jsx:23 | a tick stays within the slides, moves to the next slide, and wraps from the last to the first |
| Slider.TicksCompose | client/src/components/Announcements.jsx:21-27 | a ticks then b ticks are a + b ticks |
| Slider.TicksCountUp | client/src/components/Announcements.jsx:23 | below the last slide, k ticks advance by exactly k |
| Slider.TicksCycle | client/src/components/Announcements.jsx:22-24 | from a valid slide every number of ticks stays in range, and n ticks return to the start |
| Slider.ShownSlides | client/src/components/Announcements.jsx:40-44 | the displayed slides are exactly the rendered indices equal to the current slide |
| Slider.ExactlyOneShown | client/src/components/Announcements.jsx:58-65 | with a valid current slide exactly one slide is displayed and one dot is active, the current one |
| Slider.ShownAfterClickAndTicks | client/src/components/Announcements.jsx:29-31 | after a dot click and any number of ticks exactly one slide is displayed |

## Left out

- `server/server.js` is not part of this model. It serves the inquiry endpoints, a health check, the root page, static files and a 404 handler. It has no socket server and no announcements, schools or reviews endpoints, and nothing in it emits the realtime events, so the deletion notice's `{ id }` shape is taken from the client handlers that read it (client/src/hooks/useAnnouncements.js:37-42).
- The network and the realtime transport are left out: `fetch`, `axios`, the socket.io client and the raw WebSocket. Their outcomes are input values (`Api.Exchange`, `RealtimeData.SnapshotReply`, `Reviews.FetchReply`, `Reviews.SubmitReply`, `Sync.SocketEvent`, and `Option` for a message that fails `JSON.parse`).
- React scheduling is left out: effects, dependency arrays, batching, and overlapping fetches. `useRealtimeData` fetches on mount and again on reconnection; the model only lets `RealtimeData.FetchData` be applied at any step.
- The socket state seen by `useRealtimeData` comes from a `useSocket.js` module that is not part of this model. Its `socket` and `isConnected` values are the parameters `hasSocket` and `connected`.
- socket.io's own listener table is left out. The provider is modelled through the calls it forwards to the socket (`SocketContext.SocketCall`).
- Timers are left out (`setTimeout`, `setInterval` and their delays). Notification expiry, the delayed chat reply and slider ticks are explicit steps. `Date.now()` values are parameters.
- In Reviews, a parsed message without a `payload` is not modelled: the payload is always an object. In the component, `review_created` would prepend `undefined`, and `review_updated` and `review_deleted` would throw inside the state updater, outside the `try` block, when the list is non-empty, because the `map` and `filter` callbacks read `data.payload._id` and `data.payload.id` (Reviews.jsx:107-113). On an empty list they leave it unchanged.
- The `Reviews` loading screen, the modal's escape-key handling and `body.style.overflow` are left out, as are `Modal.jsx`, `SchoolsGallery.jsx`, `Hero.jsx` and `App.js`.
- In the chatbot, `handleSuggestedQuestion` (which reads a stale input value), `handleKeyPress` and the open/close toggle are left out.
- Text.LowerChar: lower-cases ASCII and Latin-1 capitals, U+0130 and U+212A only. Every other character is kept as is. Their real lower-case forms are not ASCII, and every keyword is ASCII, so keyword matching is unaffected.
- Reviews.Stars: ratings are integers. `repeat`'s conversion of strings and fractions is not modelled.
- Slider.Tick: takes the slide count `n > 0` as a parameter. The component fixes it at two (`Slider.SlideCount`).
- Optimistic inserts, rollback and duplicate suppression are not implemented in the client code, so they are not modelled.

## Findings

| source | as written | input that shows it | evidently intended | confidence | as-written member | corrected member |
|---|---|---|---|---|---|---|
| client/src/hooks/useRealtimeData.js:28-32 | `eventConfig[dataType]` reads through the object's prototype chain, and `if (!config)` throws only on `undefined` | `useRealtimeData('toString')`: the read yields the inherited function, so no error is thrown and the hook fetches `/api/undefined` and listens to an `undefined` event name | every type other than `announcements` and `schools` throws `Unsupported data type: <type>` | not executed; high | RealtimeData.CheckConfigAsWritten | RealtimeData.LookupConfig |
