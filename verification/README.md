# WhatsApp conversation summarizer: a Dafny model

This project models the core of a small webhook service. The service stores the
WhatsApp messages a gateway forwards to it. Messages are keyed by the pair
(expedition number, destination number), read in either direction. When the
sentinel message `{{# summarize #}}` arrives, the service:

1. reads the conversation window,
2. asks a text-generation service for a summary. The request carries a fixed prompt and
   instruction only: the transcript of the window is built and then discarded, so the
   reply does not depend on the messages,
3. converts the summary's Markdown to WhatsApp markup,
4. sends the result back to the chat,
5. deletes the summarized range from the table.

The model is a set of pure functions over immutable values:

- `MessageStore`: the `messages` table as a sequence of rows in insertion order.
  - `SaveMessage` appends a row.
  - `GetMessages` selects the pair's rows in either direction and orders them by timestamp.
  - `CleanDatabase` deletes the pair's rows with `start < timestamp < end`. Both bounds are strict, as in the SQL statement.
- `Markdown`: `convertToWhatsappMarkdown` as five global regular-expression replacements. Each replacement is the left-to-right scan that a JavaScript `replace` with the `g` flag performs. `\s` is JavaScript's exact whitespace set.
- `Pipeline`: `sendSummary` as a function from the table and a `World` value to an optional `Delivery` and the new table. `World` holds:
  - whether each awaited service succeeds;
  - the text-generation service's reply to its fixed prompt, as a constant `reply`;
  - the date formatter, as an opaque function;
  - the rows other requests append between the fetch and the prune.
- `Webhook`: the handler's priority-ordered classification. Each request gets exactly one of `NoAction`, `Summarize`, `Ignore` and `Store`. `Handle` dispatches the request to the store or the pipeline.
- `Seqs`, `Text`, `Protocol`, `Wrappers`: order-preserving filtering, prefix/suffix tests, decimal rendering of the message count, the protocol's fixed strings, and `Option`.

The strict prune bounds have a consequence that `Pipeline.BoundaryRowsPersist` proves: the rows that carry a window's first and last timestamps are never deleted by the run that summarized them. In particular, a summary run never deletes the earliest row of a conversation. If the clock never goes back, no later row is stamped earlier, so that row's timestamp stays the lower bound of every later window. Each later run then keeps the row again, and each later summary counts it and shows its date. The lemma proves a single run; the chain over many runs is this argument, not a lemma.

## Model

| member | source | states |
|---|---|---|
| MessageStore.SaveMessage | api/index.ts:49-66 | On success the table gains exactly one row, placed last. That row carries the message, author, both numbers and the clock value. Every earlier row is unchanged. On a storage failure the table is unchanged. |
| MessageStore.GetMessages | api/index.ts:68-83 | A failed query gives `None`. Otherwise the result is in non-decreasing timestamp order. It holds every row of the pair in either direction, with its multiplicity in the table, and no row of any other pair. |
| MessageStore.SortByTime | api/index.ts:75 | `ORDER BY timestamp ASC`: the result is sorted by timestamp and is a permutation of the input. |
| MessageStore.SortByTimeSorted | api/index.ts:75 | Ordering rows that are already in timestamp order leaves them unchanged. Among equal timestamps this is the model's own choice, a stable order; `ORDER BY timestamp ASC` promises it only when there are no ties. |
| MessageStore.GetMessagesSymmetric | api/index.ts:75 | Querying (A, B) and querying (B, A) give the same result. |
| MessageStore.GetMessagesInsertionOrder | api/index.ts:75 | If the conversation's timestamps strictly increase along the table, the query returns the pair's rows in insertion order. This follows from the query's contract alone, not from how ties are broken. |
| MessageStore.SortedPermutationUnique | api/index.ts:75 | Two timestamp-ordered arrangements of the same rows, one of them without equal timestamps, are the same sequence. |
| MessageStore.SaveThenQuery | api/index.ts:56-60 | If the conversation's timestamps strictly increase and all lie before the clock, a row saved with the clock keeps them strictly increasing; the same holds for the whole table when its timestamps meet both conditions. Rows of other conversations may carry any timestamps. The pair's query then returns the previous result followed by the new row. |
| MessageStore.SaveOtherPair | api/index.ts:56-60 | Saving a row of another conversation does not change a pair's query. |
| MessageStore.CleanDatabase | api/index.ts:31-47 | On success, exactly the pair's rows with `start < timestamp < end` are deleted, every copy of them. Every other row keeps its multiplicity. A storage failure changes nothing. |
| MessageStore.CleanDatabaseExact | api/index.ts:40 | A row survives exactly when it is not a pair row strictly inside the bounds. Rows at either bound survive, and so do rows of other pairs. |
| MessageStore.CleanDatabaseEmptyRange | api/index.ts:40 | When `start >= end` the table is unchanged. |
| MessageStore.CleanDatabaseSymmetric | api/index.ts:40 | The prune does not depend on the order of the two numbers. |
| MessageStore.CleanDatabaseIdempotent | api/index.ts:40 | Pruning the same range twice is the same as pruning it once. |
| MessageStore.CleanDatabaseSorted | api/index.ts:40 | The rows that remain keep their timestamp order. |
| Text.Decimal | api/index.ts:109 | The count is rendered as at least one decimal digit, with no leading zero. |
| Text.ParseDecimalInverts | api/index.ts:109 | Reading the rendered count back yields the count. |
| Text.DecimalInjective | api/index.ts:109 | Different counts render differently. |
| Markdown.RunLength | api/index.ts:169-172 | Greedy `[^d]+` consumes every character before the first delimiter and stops at it. |
| Markdown.MatchAt | api/index.ts:169-172 | A found match has a non-empty capture, and the capture and both fences fit inside the text. |
| Markdown.MatchAtCorrect | api/index.ts:169-172 | The anchored match of `F([^d]+)F` is found exactly when some capture length satisfies the pattern. That length is unique, because the capture cannot contain the delimiter. |
| Markdown.ScanMatch | api/index.ts:175-178 | When the pattern matches at the start, the global replacement emits the replaced match and resumes the scan right after it. |
| Markdown.ReplaceAll | api/index.ts:175-178 | Text without the rule's delimiter holds no match and passes the replacement unchanged. |
| Markdown.ReplaceAllSpan | api/index.ts:175-178 | A fenced, non-empty, delimiter-free span becomes the span inside the replacement fences. |
| Markdown.ReplaceAllKeepsText | api/index.ts:175-178 | Each delimiter replacement changes only that delimiter's characters. With them removed, input and output read the same. |
| Markdown.ReplaceSoftBreaks | api/index.ts:179 | The soft-break replacement never lengthens the text. |
| Markdown.ReplaceSoftBreaksNone | api/index.ts:179 | Text with no whitespace-whitespace-newline triple passes unchanged. |
| Markdown.ReplaceSoftBreaksKeepsText | api/index.ts:179 | With whitespace removed, input and output of the soft-break replacement read the same. |
| Markdown.Convert | api/index.ts:167-168 | An absent or empty input gives the empty string. |
| Markdown.ApplyRules | api/index.ts:175-178 | Text free of all four rules' delimiters passes the four replacements unchanged. |
| Markdown.ApplyRulesKeepsText | api/index.ts:175-178 | Running the four delimiter passes in order changes only delimiter characters. |
| Markdown.ConvertPlain | api/index.ts:167-181 | Text with none of `*`, `_`, `~`, `` ` `` and no soft line break is returned unchanged. |
| Markdown.ConvertSpan | api/index.ts:169-178 | For each of the four delimiter rules, a fenced plain non-empty span becomes the span inside the replacement fences. |
| Markdown.ConvertBold | api/index.ts:175 | `**x**` becomes `*x*` for plain non-empty `x`. |
| Markdown.ConvertItalic | api/index.ts:176 | `__x__` becomes `_x_` for plain non-empty `x`. |
| Markdown.ConvertStrike | api/index.ts:177 | `~~x~~` becomes `~x~` for plain non-empty `x`. |
| Markdown.ConvertMonospace | api/index.ts:178 | `` `x` `` becomes ```` ```x``` ```` for plain non-empty `x`. |
| Markdown.ConvertSoftBreak | api/index.ts:173-179 | Two whitespace characters followed by a newline become a single newline. |
| Markdown.ConvertKeepsText | api/index.ts:167-181 | The reformatter changes only delimiters and whitespace. With those removed, output and input read the same. |
| Pipeline.Summary | api/index.ts:164 | An absent reply text gives the empty summary. Otherwise the summary reads as the reply once markup characters are removed. |
| Pipeline.ComposeBody | api/index.ts:104-112 | The body starts with the summary header and is never the sentinel. Right after the header come the two date lines, then the count line with the decimal count. It ends with a blank line, the summary and a newline, and the body's length is the sum of these parts, so it holds nothing else. |
| Pipeline.Target | api/index.ts:102 | The recipient is one of the conversation's two numbers. |
| Pipeline.TargetIsPeer | api/index.ts:102 | Whichever side sent the trigger, the summary goes to the account's peer, as the gateway reports the two numbers. |
| Pipeline.SendSummary | api/index.ts:85-135 | A failed or empty fetch gives no delivery and no prune. With no delivery, nothing is pruned. A delivery happens only after a successful fetch of a non-empty window, a successful generation call and a successful send. It goes to `destination` when `fromMe` holds and to `expedition` otherwise. Its body starts with the header and reports the window's length on the count line after the date lines of the window's first and last timestamps. The table is then pruned between the window's first and last timestamps. |
| Pipeline.SummaryDelivered | api/index.ts:99-124 | A non-empty conversation with working services gets exactly one delivery. It goes to the chosen recipient. Its body is composed from the dates of the window's first and last rows, a count of every row of the conversation, and the reformatted reply. |
| Pipeline.PruneAfterDelivery | api/index.ts:126-131 | After a delivery, the pair's rows strictly between the window's bounds are gone, the window's inner rows included. Boundary rows, other conversations and arrivals at or after the last timestamp remain. |
| Pipeline.PruneFacts | api/index.ts:126-131 | The same facts, for the prune of any window drawn from the table. |
| Pipeline.BoundaryRowsPersist | api/index.ts:126-131 | Whatever the outcome, the window's first and last rows stay in the table. |
| Pipeline.LaterArrivalsSurvive | api/index.ts:126-131 | Whatever the outcome, rows appended after the fetch by a clock that never goes back survive the run. |
| Pipeline.InnerArrivalLost | api/index.ts:126-131 | A row of the pair that arrives after the fetch with a timestamp strictly inside the window was not in the window. The prune still deletes it: this is the accepted race. |
| Webhook.Classify | api/index.ts:195-217 | Each request gets exactly one disposition. A non-JSON request gets none. The sentinel body is a summary request whatever the sender. Otherwise a header-prefixed body or a newsletter sender is ignored. Anything else is stored with (body, pushname, data.from, data.to). |
| Webhook.Handle | api/index.ts:192-219 | Only a summary request can deliver, and it is exactly a `sendSummary` run on (`data.from`, `data.to`, `data.fromMe`). Ignored and non-JSON requests leave the table unchanged. A stored message is appended with the clock value; a failed store leaves the table unchanged. |
| Webhook.HandleStoreThenQuery | api/index.ts:209-216 | If the conversation's timestamps strictly increase and lie before the clock, a stored message shows up last in its conversation's query, after the earlier result. |
| Webhook.EchoIgnored | api/index.ts:195-208 | A delivered summary echoed back to the webhook is classified `Ignore`, whoever appears as sender. Handling it neither stores nor delivers anything. |

## Left out

- Express, CORS and dotenv setup, the pool and AI client construction, `app.listen` and `res.end()` (api/index.ts:1-29, 184-190, 218-225): infrastructure with no behaviour to state. When the request has a `data` object, the response is an empty acknowledgement.
- The Gemini call in `summarizeMessages` (api/index.ts:148-162): a foreign service. Its request is the constant prompt "Explications" with a fixed instruction, so its answer is the constant `World.reply`. A rejected call is `CallFailed`. An absent `text` is `Response(None)`, which the reformatter turns into `""`. The model name and sampling settings are not modelled.
- The transcript loop in `summarizeMessages` (api/index.ts:138-147): it builds `_contenu` from the window and never uses it. Its one effect is on a failed query. There `rows` is `undefined`, and the optional chains `rows?.at(0).timestamp` and `rows?.at(-1).timestamp` (api/index.ts:92, 95) short-circuit without throwing. The dates become "Invalid Date", and the `for…of` at api/index.ts:139 is the first statement to throw. The `catch` at api/index.ts:132 ends the run. The `None` branch of `SendSummary` gives that outcome: no delivery and no prune. An empty window instead throws at api/index.ts:92, because `.timestamp` is read from `undefined`, with the same outcome. The loop's date formatting is not modelled.
- The outbound `fetch` (api/index.ts:115-124): it is a `Delivery(to, body)` value plus the `sendUp` flag. The form encoding and the token are not modelled.
- `toLocaleString("fr-FR")` (api/index.ts:92-97): depends on the locale and on floating-point `Date` handling. It is the opaque function `World.formatDate`.
- Connection acquire/release and real concurrency: the un-awaited `cleanDatabase` is treated as finishing within the run. Concurrent requests appear only as the rows `World.arrivals`, appended between the fetch and the prune.
- Logging in the `catch` blocks: a failure is a `None` result or an unchanged table.
- Timestamps are `nat`. The source stores `Date.now()` as a decimal string and the column type is not part of this model. Comparisons and `ORDER BY` are taken as numeric, which holds for equal-length decimal strings.
- MessageStore.GetMessagesInsertionOrder: stated only when the conversation's timestamps strictly increase, because `ORDER BY timestamp` does not fix the order of rows with equal timestamps.
- MessageStore.SaveThenQuery: stated only when the conversation's timestamps strictly increase and precede the clock, for the same reason; a row saved with the same clock value as an earlier one may sort before it.
- MessageStore.GetMessages: SQL leaves the order of equal timestamps unspecified. The function keeps table order for ties, but its contract promises only a timestamp-sorted permutation.
- Request shapes: `data` is assumed present and its fields are strings (`fromMe` a boolean). Missing values are not modelled:
  - A missing `data` makes the handler throw outside any `catch`, before `res.end()` (api/index.ts:218).
  - Only `data.body` (api/index.ts:196) and the top-level `from` (api/index.ts:207) go through template literals. An `undefined` value there renders as the text `undefined`.
  - An `undefined` `data.pushname`, `data.from` or `data.to` is passed as a query parameter (api/index.ts:39-41, 58-61, 74-76), which the database driver sends as SQL NULL.
  - An `undefined` `data.fromMe` is falsy, so the summary goes to `expedition` (api/index.ts:102).
- The content-type test is the source's strict equality with `application/json`. A header such as `application/json; charset=utf-8` is therefore `NoAction`.
