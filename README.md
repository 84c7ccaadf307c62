# Kolping Dietfurt chatbot: message classification and reply construction

This project models the core of a Messenger webhook bot for the Kolping club of Dietfurt
(`index.js`). The bot receives batched messaging events from the chat platform and routes
each one by its kind. Every text message is lower-cased and tested against three fixed
keyword groups: greeting, events (Termine) and weather. Every group that matches fires.
When the events group fires, the bot turns the records it fetches from the club's API into
a generic-template list of at most five entries.

Modules:

- `Wrappers`: the `Option` type, used for JSON properties that may be absent.
- `Text`: ASCII lower-casing (`toLowerCase`) and literal substring search (`indexOf`).
- `Keywords`: `matchesArray`, a flag loop over a keyword list.
- `Classifier`: the three keyword groups and the ordered list of groups that fire on a message.
- `Termine`: `sendTermine`, which builds the list message from event records.
- `Webhook`: the POST `/webhook` handler, which walks the batch, routes each event and acknowledges.

The network is abstracted away. The profile lookup, the events and weather fetches, the typing
indicator and the Send API are not modelled. `Classifier.ReceivedMessage` returns the groups
that fire, in firing order. `Termine.SendTermine` returns the message it would hand to the Send
API. `Webhook.HandleWebhook` returns what happens to the request, together with one record per
`receivedMessage` call that returns.

Two points about what `index.js` does and does not do:

- It has no multi-step registration dialog and no per-user state. It also has no board-member
  reply, no registration button prompt, and no "more" marker that widens the event list past
  five entries.
- It tests the keyword groups in a fixed order, and every group that matches fires. The model
  therefore returns the groups that fire as an ordered sequence.

## Model

| member | source | states |
|---|---|---|
| `Text.Lower` | index.js:203 | lower-casing keeps the length and folds each character on its own (ASCII only) |
| `Text.LowerCharFolds` | index.js:203 | a folded character is never an upper-case ASCII letter, and folding is idempotent |
| `Text.LowerCharEqualIff` | index.js:203 | two characters fold to the same character exactly when they are equal, or are the upper- and lower-case forms of one ASCII letter |
| `Text.LowerEqualIff` | index.js:203 | two texts lower-case to the same string exactly when, position by position, their characters are equal or are the two cases of one ASCII letter |
| `Text.LowerIdempotent` | index.js:203 | lower-casing an already lower-cased text changes nothing |
| `Text.IndexOf` | index.js:188 | `indexOf` is -1 exactly when the keyword occurs nowhere; otherwise it is the first position where it occurs |
| `Text.SearchFrom` | index.js:188 | searching from a position with no earlier occurrence finds the first occurrence, or -1 when there is none |
| `Text.ContainsWithin` | index.js:188 | matching is plain substring search: an occurrence stays an occurrence inside any longer text |
| `Keywords.MatchesArray` | index.js:184-194 | the result is true exactly when some keyword occurs in the message as a contiguous substring; an empty list gives false |
| `Keywords.MatchesAnyAppend` | index.js:185-193 | the flag is never reset, so matching a concatenated list means matching either part |
| `Keywords.MatchesAnyOrderFree` | index.js:185-193 | permuting the keyword list never changes the result |
| `Keywords.MatchesAnyWithin` | index.js:184-194 | a matching message still matches when more text surrounds it |
| `Classifier.ReceivedMessage` | index.js:203-247 | the groups that fire are exactly `Classify` of the message text |
| `Classifier.ClassifyStepwise` | index.js:205-247 | the three groups are tested independently, with no early exit, in the order greeting, events, weather |
| `Classifier.ClassifyIff` | index.js:203-235 | a group fires exactly when one of its keywords occurs in the lower-cased text |
| `Classifier.ClassifyOrdered` | index.js:205-247 | groups fire in the order greeting, events, weather, each at most once, so at most three fire |
| `Classifier.ClassifyEmptyIff` | index.js:205-247 | no group fires exactly when the message holds no trigger of any group |
| `Classifier.ClassifyCaseInsensitive` | index.js:203 | changing the case of ASCII letters in a message never changes which groups fire |
| `Classifier.ClassifyLowered` | index.js:203 | classifying the lower-cased text gives the same groups as classifying the original |
| `Classifier.ClassifyWithin` | index.js:205-235 | a group that fires on a text also fires on every longer text that contains it |
| `Classifier.GreetingInsideWord` | index.js:205 | the keyword "hi" fires the greeting group inside an unrelated word ("Schicht") |
| `Classifier.FiringAmongMembers` | index.js:205-247 | a group is in the filtered list exactly when it was tested and one of its keywords occurs |
| `Classifier.FiringAmongOrdered` | index.js:205-247 | the filter keeps the order in which the groups were tested |
| `Termine.SendTermine` | index.js:250-291 | the message goes to the recipient as a generic template, and its elements are `Entries` of the records |
| `Termine.EntriesLength` | index.js:266-288 | there are exactly min(5, number of records) entries, so fewer records give only those, with no padding |
| `Termine.EntriesAt` | index.js:266-288 | entry i is built from record i, so the order is kept |
| `Termine.EntryFields` | index.js:269-286 | each entry copies title, date and url and has one "Mehr Infos" `web_url` button to the url; it has an image url exactly when the record has an image, and then the two are equal |
| `Termine.EntriesIgnoreTail` | index.js:266-268 | records after the fifth never influence the message |
| `Webhook.RouteOf` | index.js:63-73 | an event reaches `receivedMessage` exactly when it has no optin and has a message; it is unknown exactly when none of the four fields is present |
| `Webhook.HandleWebhook` | index.js:50-83 | the outcome is `Handle(body)`: no response unless the body is a page subscription; otherwise every event is visited entry by entry and the batch is acknowledged, or aborted at the first message without text |
| `Webhook.ThrowEndsBatch` | index.js:57-81 | an exception at one event decides the outcome of the whole batch |
| `Webhook.ThrewStays` | index.js:57-81 | once `receivedMessage` has thrown, no later event of the batch is handled |
| `Webhook.ProcessRunningIff` | index.js:57-81 | a batch runs to its acknowledgement exactly when none of its message events lacks text |
| `Webhook.ProcessAgreesWithTolerant` | index.js:57-81 | on a batch where every message has text, the handler as written dispatches the same messages, in the same order, as the tolerant handling |
| `Webhook.ProcessTolerantAppend` | index.js:57-74 | under tolerant handling, a batch is handled as its parts one after the other |
| `Webhook.ProcessTolerantHandlesEveryText` | index.js:57-74 | under tolerant handling, every text message in a batch is classified, whatever events surround it |
| `Webhook.TextlessMessageAbortsBatch` | index.js:203 | as written, a message without text aborts the batch: a later text message is never classified and no 200 is sent |

## Findings

| source | as written | input that shows it | evidently intended | confidence | as-written member | corrected member |
|---|---|---|---|---|---|---|
| index.js:203 | `message.text.toLowerCase()` is called even when the message has no `text`. That throws, which ends the `forEach` over the batch, so `res.sendStatus(200)` at index.js:81 is never reached | a batch whose first message event is an attachment or sticker (no `text`) and whose second is a text message from another user | skip the message that has no text; still classify every other message of the batch and acknowledge it | medium, not executed | `Webhook.TextlessMessageAbortsBatch` | `Webhook.ProcessTolerantHandlesEveryText` |

`Webhook.HandleWebhook` models the handler as written, including the abort. `Webhook.ProcessTolerant`
is the corrected batch handling. `Webhook.ProcessAgreesWithTolerant` shows that the two agree on
every batch the code handles without throwing.

## Left out

- Request-signature verification (index.js:94-114) is not modelled. It is an HMAC-SHA1 computation by a crypto library. A signature mismatch throws before the handler runs.
- The webhook verification handshake (index.js:30-39), the configuration check (index.js:12-23) and server start-up (index.js:297-299) are HTTP and process plumbing.
- `sendTextMessage`, `typing` and `callSendAPI` (index.js:121-182) are not modelled. They are network calls. `typing` passes no callback to `request`: the `function (error, response, body)` at index.js:145 sits inside the options object literal, where JavaScript reads it as a method named `function`, so nothing is ever logged. Only `callSendAPI` has a callback (index.js:169-181), and that callback only logs.
- The profile, events and weather requests inside `receivedMessage` (index.js:206-246) are not modelled, and neither are the replies they send. The model records which groups fire, not what those groups send.
- The weather reply text is not modelled. It interpolates floating-point temperatures taken from an external JSON response.
- Text.Lower: this is ASCII case folding only. JavaScript's `toLowerCase` also folds non-ASCII characters. Two of them fold to ASCII letters: U+212A KELVIN SIGN becomes `k`, and U+0130 becomes `i` followed by U+0307. So the model classifies some inputs differently from the code. For example, `"\u212AALT"` lower-cases to `"kalt"` in JavaScript and fires the weather group, but the model fires no group on it. Likewise `"H\u0130"` fires the greeting group (`"hi"`) in JavaScript but not in the model.
- Termine.Termin: record fields are modelled as strings. A record whose `title`, `date` or `url` is missing, or is not a string, is not modelled. An `image` property that is present but `null` or non-string counts as present, with its value abstracted as a string.
- Webhook.MessagingEvent: the `optin`, `delivery` and `postback` fields are reduced to whether they are present and truthy. A `message` field is always an object, so it is always truthy. Malformed bodies, for example ones with no `entry` or `messaging` array, are not modelled.
- Webhook.HandleWebhook: on `Aborted`, the model does not say how the HTTP framework answers the escaped exception. It says only that the handler sends no 200.
- The logging on every path (`console.log`, `console.error`) is not modelled.
