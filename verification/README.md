# Telegram beacon webhook: a verified model of the ingestion core

The webhook in `api/tg-webhook.js` receives chat-platform updates. For every
actionable POST it appends one entry to the `/logs` list. It also overwrites the
single `/beacon` record, which says whether the beacon is on and when it expires.
The message text decides the beacon:

- `/off` switches the beacon off now.
- `/on 2m` keeps it on for the given duration.
- Any other text re-arms it for the default duration.

This project models that core in Dafny and proves what it promises.

- `wrappers.dfy` defines the `Option` type that stands for JavaScript's
  `undefined`/`null`.
- `strings.dfy` holds the character-level pieces of JavaScript the handler
  relies on:
  - the whitespace set shared by `String.prototype.trim` and the regular-expression
    class `\s`
  - ASCII case folding under the `/i` flag
  - the word characters behind `\b`
  - `trim` itself, with its lemmas
- `duration.dfy` models `parseDuration`. The regular expression
  `^(\d+)\s*([smh]?)$` is given twice:
  - as a split of the string into digits, whitespace and an optional unit
    (`DurationSplit`)
  - as the deterministic scan the function performs (`MatchDuration`)

  Lemmas show that the two agree.
- `updates.dfy` models the update objects:
  - the update, message, user, chat and callback query, as datatypes with optional
    fields
  - `extractMessage`
  - the sender label and the message text
- `commands.dfy` models the `/on` and `/off` tests.
  - The handler's reassignment of `durationMs` is a method.
  - It is proved against the function `DurationMs`.
  - The resulting on/expiry decision is `Interpret`.
- `ingestion.dfy` models the store effect:
  - `Apply` is a pure function from a store state and a request to the next state.
  - `Store` is a class with a `logs` sequence and a `beacon` field.
  - Its `Handle` method pushes and sets in place, and is proved to produce exactly
    `Apply` of the old state.
  - Lemmas over sequences of deliveries show that the log is append-only and the
    beacon is overwritten.

JavaScript truthiness is modelled by `Truthy`: a string field counts only when it
is present and non-empty, as `||` and `filter(Boolean)` treat it. The wall clock is
the parameter `now`. The configured default duration is the parameter `defaultMs`,
which callers must give as at least 1000, as line 95 guarantees.

## Model

| member | source | states |
|---|---|---|
| Strings.Trim | api/tg-webhook.js:36 | The result of `trim` has no whitespace at either end. |
| Strings.TrimIsInfix | api/tg-webhook.js:89 | The trimmed string is a contiguous piece of the input, and only whitespace lies before and after it. |
| Strings.TrimKeepsTrimmed | api/tg-webhook.js:89 | A string with no whitespace at either end is its own trim (`trim` is idempotent). |
| Strings.TrimEmptyIff | api/tg-webhook.js:89 | `trim` gives the empty string exactly when the input is all whitespace. |
| Strings.TrimDropsLeadingWhitespace | api/tg-webhook.js:99 | A whitespace character in front of a trimmed string is removed by `trim` and nothing else is. |
| Strings.TrimStartDropsWhitespace | api/tg-webhook.js:36 | What trimming the start removes is all whitespace. |
| Strings.TrimEndDropsWhitespace | api/tg-webhook.js:36 | What trimming the end removes is all whitespace. |
| Duration.UnitScale | api/tg-webhook.js:39-40 | The scale of a unit is 1000, 60000 or 3600000 ms; no unit means seconds. |
| Duration.DigitsValue | api/tg-webhook.js:38 | `parseInt(digits, 10)` of a run of `n` decimal digits is a natural number below `10^n`. |
| Duration.DigitsValueLeadingZero | api/tg-webhook.js:38 | A leading zero does not change the number `parseInt` reads. |
| Duration.DigitRunIsMaximal | api/tg-webhook.js:36 | The scanned digit run is all digits and is followed by a non-digit or the end (the greedy `\d+`). |
| Duration.WhitespaceRunIsMaximal | api/tg-webhook.js:36 | The scanned whitespace run is all whitespace and is followed by a non-whitespace character or the end (the greedy `\s*`). |
| Duration.MatchDuration | api/tg-webhook.js:36-40 | The result is either the fallback or at least one second. |
| Duration.ParseDuration | api/tg-webhook.js:35-41 | `parseDuration` returns the fallback or a value of at least 1000 ms. |
| Duration.SplitIsUnique | api/tg-webhook.js:36 | Any split of a string into digits, whitespace and an optional unit is the one the scan finds, so the pattern has at most one match. |
| Duration.ScanFindsSplit | api/tg-webhook.js:36 | When the scan accepts, what it found is a split matching the pattern. |
| Duration.MatchDurationUnmatched | api/tg-webhook.js:36-37 | A trimmed text that does not match the pattern gives the fallback. |
| Duration.MatchDurationMatched | api/tg-webhook.js:38-40 | A trimmed text that matches gives `max(1000, n * scale)`. |
| Duration.ParseDurationUnmatched | api/tg-webhook.js:36-37 | When the trimmed text does not match `^(\d+)\s*([smh]?)$` (the empty text included), the fallback is returned unchanged. |
| Duration.ParseDurationMatched | api/tg-webhook.js:38-40 | When the trimmed text matches, the result is `max(1000, n * scale)` with the unit's scale, and so at least 1000. |
| Duration.ParseDurationSeconds | api/tg-webhook.js:38-40 | `"45"` is 45000 ms: no unit means seconds. |
| Duration.ParseDurationMinutes | api/tg-webhook.js:38-40 | `"2m"` is 120000 ms. |
| Duration.ParseDurationHours | api/tg-webhook.js:38-40 | `"1h"` is 3600000 ms. |
| Duration.ParseDurationUpperCaseUnit | api/tg-webhook.js:36-40 | `"5M"` is 300000 ms: the unit is case-insensitive. |
| Duration.ParseDurationZero | api/tg-webhook.js:40 | `"0"` is floored to 1000 ms. |
| Duration.ParseDurationEmpty | api/tg-webhook.js:36-37 | The empty text gives the fallback. |
| Duration.ParseDurationUnknownUnit | api/tg-webhook.js:36-37 | `"2 weeks"` gives the fallback. |
| Updates.FirstPresent | api/tg-webhook.js:44-55 | The result is absent exactly when every candidate is absent; otherwise it is some candidate before which all candidates are absent. |
| Updates.ExtractMessageIsFirstPresent | api/tg-webhook.js:43-56 | `extractMessage` returns the first present variant in the order message, edited message, channel post, edited channel post, button press. |
| Updates.ExtractMessage | api/tg-webhook.js:43-56 | `extractMessage` returns null exactly when the update carries none of the five variants: message, edited message, channel post, edited channel post, button press. |
| Updates.ExtractMessageCallback | api/tg-webhook.js:49-53 | An update carrying only a button press yields the message built from it. |
| Updates.JoinWithSpace | api/tg-webhook.js:92 | Joining a non-empty list of non-empty names gives a non-empty string. |
| Updates.GivenNames | api/tg-webhook.js:92 | The names kept by `filter(Boolean)` are all non-empty. |
| Updates.ActorLabel | api/tg-webhook.js:90-92 | The label is never empty. It is `@` and the username when there is a username, and `unknown` when there is neither a username nor any name. |
| Updates.ActorLabelFromNames | api/tg-webhook.js:92 | Without a username the label is `first last`, or the one name present, or `unknown` when neither is present. |
| Updates.CallbackChatId | api/tg-webhook.js:49-53 | A button press gives a message whose chat id (`msg.chat?.id`, line 104) is that of the chat of the message carrying the button, and is absent when that message or its chat is absent. |
| Updates.MessageText | api/tg-webhook.js:89 | The text is the trimmed `text` if `text` is non-empty, else the trimmed caption if the caption is non-empty, else empty; it is always trimmed. A whitespace-only `text` gives the empty string and does not fall through to the caption. |
| Commands.IsOffCommand | api/tg-webhook.js:98 | `/^\/off\b/i`: the text is `/`, then `off` in any ASCII case, then the end or a character that is not a word character. |
| Commands.IsOnCommand | api/tg-webhook.js:99 | `/^\/on\b/i`: the text is `/`, then `on` in any ASCII case, then the end or a character that is not a word character. |
| Commands.OnArgument | api/tg-webhook.js:99 | `text.replace(/^\/on/i, '').trim()` has no whitespace at either end and is no longer than the text after the three-character `/on` token. |
| Commands.OnArgumentIsRest | api/tg-webhook.js:99 | The argument is a contiguous piece of the text after the `/on` token, with only whitespace before and after it; with `OnArgument`'s contract this fixes it as that rest, trimmed. |
| Commands.DurationMs | api/tg-webhook.js:97-99 | The duration is zero exactly for `/off` and otherwise at least one second. |
| Commands.CommandDuration | api/tg-webhook.js:97-99 | The imperative branch that reassigns `durationMs` computes `DurationMs`, zero exactly for `/off`. |
| Commands.Interpret | api/tg-webhook.js:97-101 | The beacon is on exactly when the text is not `/off`; when on it expires at least one second after now, and when off it expires now. |
| Commands.CommandsExclusive | api/tg-webhook.js:98-99 | No text is both an `/off` and an `/on` command. |
| Commands.InterpretOn | api/tg-webhook.js:99-101 | `/on` followed by an argument gives on, expiring at now plus `parseDuration` of the trimmed argument with the default as fallback. |
| Commands.InterpretImplicitOn | api/tg-webhook.js:97-101 | Text that is neither `/off` nor `/on` is an implicit `/on` for the default duration. |
| Commands.InterpretOffExample | api/tg-webhook.js:98 | `/off` and `/OFF please` switch the beacon off with expiry now. |
| Commands.OnArgumentExample | api/tg-webhook.js:99 | `/on 2m` is an `/on` command whose argument is `2m`. |
| Commands.InterpretOnExample | api/tg-webhook.js:99-101 | `/on 2m` keeps the beacon on until now plus 120000 ms. |
| Commands.InterpretPlainTextExample | api/tg-webhook.js:97-99 | `hello` and `/online` (no word boundary after `/on`) re-arm the beacon for the default. |
| Ingestion.Body | api/tg-webhook.js:104-108 | The stored body is the text, or `[non-text]` when the text is empty; it is never empty. |
| Ingestion.ActionableMessage | api/tg-webhook.js:60-87 | A request is acted on exactly when it is a POST with a parsed update that carries at least one of the five variants (message, edited message, channel post, edited channel post, button press); a direct message, when present, is the one acted on. |
| Ingestion.WritesFor | api/tg-webhook.js:103-110 | The log entry and the beacon's last message carry the same label, body and time. The entry carries the chat id. The beacon is on exactly when the text is not `/off`, and it expires after now when on and at now when off. |
| Ingestion.Apply | api/tg-webhook.js:60-110 | A non-POST request or a missing update leaves the store unchanged, and so does exactly a request with no message. An actionable one appends one entry after the untouched earlier ones and sets a beacon that agrees with that entry. |
| Ingestion.ApplyActionable | api/tg-webhook.js:89-110 | An actionable request appends exactly the entry built from the label, body, chat id and now, and sets the beacon from the command's decision. |
| Ingestion.RepeatedDelivery | api/tg-webhook.js:103-110 | The same actionable request handled twice appends two entries, identical when the times are, and leaves the beacon the second delivery alone would have written. |
| Ingestion.EndToEndExample | api/tg-webhook.js:58-110 | A POST of `/on 2m` from `alice` in chat 42 logs `@alice`, `/on 2m`, chat 42, and turns the beacon on for two minutes. |
| Ingestion.LogIsAppendOnly | api/tg-webhook.js:104 | After any sequence of deliveries the log is the old log followed by one entry per actionable delivery, in arrival order. |
| Ingestion.BeaconForgetsEarlierState | api/tg-webhook.js:105-109 | Once any delivery is actionable, the beacon no longer depends on what the store held before. |
| Ingestion.Store.constructor | api/tg-webhook.js:103-110 | A new store has an empty log and no beacon. |
| Ingestion.Store.Push | api/tg-webhook.js:104 | Pushing appends the entry and leaves the earlier entries and the beacon alone. |
| Ingestion.Store.Set | api/tg-webhook.js:105-109 | Setting overwrites the beacon and leaves the log alone. |
| Ingestion.Store.Handle | api/tg-webhook.js:58-110 | Every request is acknowledged with `200 ok`, and the store's new state is exactly `Apply` of its old state. |
| Ingestion.DeliverTwice | api/tg-webhook.js:103-110 | Handling the same actionable request twice on one store adds two log entries after the untouched old ones and leaves the beacon of the second delivery. |

## Left out

- Firebase set-up (`ensureFirebase`, lines 4-19): credentials, the `firebase-admin` SDK and the cached connection are foreign code. The store is an in-memory object instead.
- Reading and parsing the body (`getRawBody`, `JSON.parse`, lines 22-33 and 70-73): this is I/O and a library parser. The request carries an already parsed update, `None` when the body was empty, not JSON, or parsed to a falsy value.
- Values of the wrong JSON type: the fields of an update are strings, numbers and objects as the platform sends them. A truthy non-object `message`, or a non-string `text`, is not modelled.
- The diagnostic writes under `/debug` (lines 67, 76, 81-85, 112-115) and the exception handler (lines 111-116) are not modelled. Their content is never read back, but they are awaited, so a failed one does change what is stored; see the next line.
- Ingestion.Store.Handle: every store write is assumed to succeed. In the source, a failure in `ensureFirebase` (line 64) or a rejected breadcrumb write (lines 67, 76, 81-85) jumps to the `catch` at line 111, and then neither the push at line 104 nor the set at lines 105-109 happens. A push that throws synchronously (line 104) also skips the beacon set, because the array elements are evaluated in order. A rejected push or set after both were issued leaves the other write in place. The model's `Handle` always performs both writes.
- `Promise.all` (lines 103-110): the two writes run concurrently in the source and can race with another request's writes. The model performs the push and then the set, one request at a time.
- Ordering of the HTTP response: the response is sent before processing (lines 60-61), which is transport behaviour. `Handle` returns `200 ok` for every request.
- `BEACON_SECONDS` (line 95): reading the environment and its `NaN` path are not modelled. `defaultMs` is a parameter of at least 1000, the floor line 95 applies.
- `durationMs || 0` (line 101) is modelled as `durationMs`: with `defaultMs` at least 1000 the duration is always a natural number, never `NaN`.
- Duration.DigitsValue: `parseInt` on a very long digit string loses precision in floating point. The model uses unbounded naturals.
- Strings are sequences of code points rather than UTF-16 code units. Characters outside the Basic Multilingual Plane are therefore one character here, not two.
- Ingestion.LogEntry: a missing chat id (line 104, a button press whose carrying message is absent) is stored as `None`. The database library may instead refuse a value containing `undefined` and throw from `push`. Then, as above, neither the entry nor the beacon is written and the request only reaches the `catch` at line 111. The model does not capture that outcome.
- The clock (`Date.now()`, line 94) is the parameter `now`.
- api/echo.js and api/test-write.js are debugging endpoints that only write request metadata or fixed values to the store, which is I/O. They are not part of this model.
