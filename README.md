# chatgpt-backup harvesting pipeline, in Dafny

This project models the harvesting pipeline of `backup_modified.js`, a browser script
that backs up a user's whole ChatGPT conversation history. The parts are:

- **Offset planner** (`generateOffsets`). It lists the page boundaries still to request.
- **Id collector** (the page loop of `getAllConversations`, `getConversationIds`, `getRequestCount`).
  It reads the first listing page, then the planned pages up to the stop offset, and
  deduplicates the items by id the way a JavaScript `Map` does.
- **Backoff fetcher** (`fetchConversation`). It makes up to `max(maxAttempts, 1)` attempts, sleeping
  `10000 * 2^attempt` ms after failed attempt `attempt`.
- **Message normaliser** (`parseConversation`). It flattens a conversation's mapping of nodes
  into messages with a defaulted role and model and a content string chosen by shape.
- **Per-item loop** of `getAllConversations`. It fetches and normalises each unique item in
  order, logs progress before items 0, 20, 40, … and logs once more at `lastOffset` at the end.
- **File-name timestamp** (`getDateFormat`).

The network and the browser are parameters of the model:

- the listing endpoint is `pages: int -> Option<Page>`, where `None` is a failed request;
- the per-conversation endpoint is `conversations: (id, attempt) -> Option<RawConversation>`,
  where `None` is a failed attempt;
- `JSON.stringify` is `serialize: J -> string`, and nothing is assumed about it beyond its returning a string;
- the `Date` getters are integer arguments.

Each call of the backoff fetcher records the sleeps it makes, as their durations. No other
sleep is recorded. Log lines are recorded by the values they print.

Files are `wrappers.dfy` (Option, Result), `strings.dfy` (join, split, decimal digits),
`offsets.dfy`, `collector.dfy`, `retry.dfy`, `messages.dfy`, `harvest.dfy` and `filename.dfy`.
There is one module per file.

Two behaviours of the code are easy to misread:

- The planner's loop test is `i <= total`. So `generateOffsets(0, 20)` is `[20]`, not `[]`.
  The plan is empty exactly when `total < startOffset + 20`, not when `total <= startOffset + 20`.
- When `stopOffset` is not one of the planned boundaries (and is not -1), the page loop never breaks and
  requests every planned page. `lastOffset` is still `stopOffset`, and `getRequestCount` is
  still `stopOffset - startOffset`.

## Model

| member | source | states |
|---|---|---|
| `Offsets.GenerateOffsets` | backup_modified.js:1-9 | the loop returns exactly the plan: the boundaries `startOffset+20, startOffset+40, …` not exceeding `total` |
| `Offsets.Boundaries` | backup_modified.js:5-7 | defines the values the `for` loop pushes from `i`: `i`, `i + 20`, … while `<= total` |
| `Offsets.Plan` | backup_modified.js:1-9 | defines the plan: the boundaries counted from `startOffset + 20` in steps of 20 while `<= total` (closed form in `Offsets.PlanShape`) |
| `Offsets.BoundariesShape` | backup_modified.js:5-7 | counting from `i` in steps of 20 while `<= total` gives `(total-i) div 20 + 1` elements (none if `total < i`), element `k` being `i + 20k` |
| `Offsets.PlanShape` | backup_modified.js:1-9 | the plan is `[s+20, …, s+20k]` with `k = max(0, (t-s) div 20)`; strictly increasing, every element `<= total`, the next boundary would exceed `total`, empty iff `total < startOffset + 20` |
| `Offsets.PlanExamples` | backup_modified.js:1-9 | `(0,20) -> [20]`, `(0,45) -> [20,40]`, `(5,50) -> [25,45]`, `(0,19) -> []` |
| `Collector.Tag` | backup_modified.js:100 | each listing entry keeps its id and fields and is tagged with the offset of its page, in page order |
| `Collector.PagesRequested` | backup_modified.js:133-134 | the offsets the loop requests: a prefix of the plan that contains no `stopOffset`, taken up to the first `stopOffset` |
| `Collector.FetchPages` | backup_modified.js:135-137 | defines the items of the pages at the given offsets, each page tagged with its offset, in request order; `None` as soon as one request fails |
| `Collector.Collect` | backup_modified.js:128-138 | defines the page phase: no result if the first page fails; else the first page's items tagged with `startOffset`, then the requested pages' items, with the listing total and the plan |
| `Collector.CollectIds` | backup_modified.js:128-138 | the page loop returns the first page's items followed by the items of the requested pages, in order, with the listing total and the plan; it fails if any of those requests fails |
| `Collector.FetchPlanned` | backup_modified.js:133-138 | the `for` loop over the plan returns the items of exactly the pages before the first `stopOffset`, in order, or fails if one of those requests fails |
| `Collector.FetchPagesFailureExtends` | backup_modified.js:136-137 | once one page request fails, the whole page phase fails |
| `Collector.PagesRequestedIsLongestPrefix` | backup_modified.js:133-138 | the pages requested after the first are a prefix of the plan with no `stopOffset` in it, and either the whole plan or stopped just before a `stopOffset` |
| `Collector.PagesRequestedStop` | backup_modified.js:133-134 | any stop-free prefix of the plan that reaches the end or a `stopOffset` is exactly the requested pages |
| `Collector.PagesRequestedAll` | backup_modified.js:133-134 | when `stopOffset` is not in the plan, every planned page is requested |
| `Collector.PagesRequestedUnbounded` | backup_modified.js:133-134 | with `startOffset >= 0` the sentinel -1 never matches, so every planned page is requested |
| `Collector.RequestCountMatchesPages` | backup_modified.js:48-51 | when `stopOffset` is a planned boundary, `getRequestCount` is 20 times the number of pages requested, the first included |
| `Collector.RequestCount` | backup_modified.js:48-51 | defines `getRequestCount`: the total when `stopOffset` is -1, else `stopOffset - startOffset` |
| `Collector.RequestCountExamples` | backup_modified.js:48-51 | `(100, 0, -1) -> 100` and `(100, 10, 60) -> 50` |
| `Collector.LastOffsetOfPlan` | backup_modified.js:143 | `lastOffset` is `stopOffset` when that is not -1; otherwise the last boundary `s + 20((t-s) div 20)`, or undefined when nothing was planned |
| `Collector.LastOffset` | backup_modified.js:143 | defines `lastOffset`: `stopOffset` unless it is -1, else the plan's last element, or undefined for an empty plan |
| `Collector.MapSetStep` | backup_modified.js:141 | `Map.set` on a new id appends it to the key order; on a present id it keeps the position and replaces the value |
| `Collector.Dedup` | backup_modified.js:141 | the result has pairwise-distinct ids, exactly the input's ids, and no more entries than the input; ids are in order of first appearance, and each carries the item of its last appearance |
| `Collector.MapValues` | backup_modified.js:141 | `Array.from(map.values())`: one value per key, the value stored under each key, in key order |
| `Collector.DedupExample` | backup_modified.js:141 | items `a@0, b@20, a@20` deduplicate to two items, `a` first and carrying its offset-20 occurrence |
| `Collector.DistinctIdCount` | backup_modified.js:141 | a list with pairwise-distinct ids has as many entries as distinct ids |
| `Collector.CollectExample` | backup_modified.js:128-143 | `total = 25` from offset 0 with no stop: one more page at 20, and `lastOffset` is 20 |
| `Retry.FetchConversation` | backup_modified.js:103-123 | the attempts made run from `attempt` up to `attempt` plus the number of delays, and all but the last failed; a success returns the last attempt's answer; delay `k` is `10000 * 2^(attempt+k)`; the call gives up, throwing `Exhausted(maxAttempts)`, only once the last attempt fails with the counter at or past `maxAttempts` |
| `Retry.Backoff` | backup_modified.js:104-117 | the sleep after failed attempt `a` is `10000 * 2^a` ms, never less than 10000 |
| `Retry.ErrorMessage` | backup_modified.js:115 | defines the thrown message `Failed after <maxAttempts> attempts.` |
| `Retry.SucceedsOnAttempt` | backup_modified.js:106-120 | if attempt `j <= m` is the first to succeed, the call returns its answer after exactly `j-1` delays `20000, 40000, …` |
| `Retry.ExhaustsAfterAllAttempts` | backup_modified.js:113-120 | if every allowed attempt fails, the call throws `Failed after m attempts.` after `m-1` delays (one attempt and no delay when `m <= 1`) |
| `Retry.AttemptsBounded` | backup_modified.js:114-120 | at most `max(m, 1)` attempts are made |
| `Retry.BackoffDoubles` | backup_modified.js:117 | each delay is twice the previous one |
| `Retry.RetryExamples` | backup_modified.js:103-123 | fail, fail, succeed with 3 attempts: success after `[20000, 40000]`; always fail with 2 attempts: exhausted with count 2 after `[20000]` |
| `Messages.ParseConversation` | backup_modified.js:15-46 | the loop over the keys returns the normalised messages of the nodes, and passes the top-level `title` and `create_time` through unchanged |
| `Messages.Parsed` | backup_modified.js:15-45 | defines the returned record: the normalised messages of the mapping, the top-level `create_time` and the `title` |
| `Messages.NormalizeAll` | backup_modified.js:22-43 | defines the messages of a mapping: one normalised message per node with a present message, in key order |
| `Messages.NormalizeMessage` | backup_modified.js:27-42 | the role and model are never empty, and the message's `create_time` passes through |
| `Messages.OrUnknown` | backup_modified.js:27-28 | `x || "unknown"` on an optional string: the value when present and non-empty, else `"unknown"`; never empty |
| `Messages.ElementText` | backup_modified.js:37 | defines `c.text || JSON.stringify(c)`: the element's text when present and non-empty, else its serialisation |
| `Messages.ContentText` | backup_modified.js:31-40 | defines the content string: joined `parts`; else a non-empty `text`; else one line per array element; else the serialised content |
| `Messages.NormalizeAllLength` | backup_modified.js:22-25 | exactly one message per node whose `message` is present |
| `Messages.NormalizeAllAt` | backup_modified.js:22-43 | a node with a present message yields its normalised message at the position given by the number of present nodes before it |
| `Messages.NormalizeAllKeepsOrder` | backup_modified.js:19-22 | an earlier present node yields an earlier message (mapping-key order) |
| `Messages.NormalizeAllAbsent` | backup_modified.js:24-25 | nodes whose message is absent are skipped, not errors |
| `Messages.NormalizeMessageFields` | backup_modified.js:27-29 | role and model are never empty: the raw value when present and non-empty, else `"unknown"`; the message's `create_time` passes through |
| `Messages.ContentFromParts` | backup_modified.js:32-33 | content with `parts` is the parts joined by newlines, so, for a non-empty list of newline-free parts, splitting it gives the parts back |
| `Messages.ContentFromText` | backup_modified.js:34-39 | a non-empty `text` is taken verbatim; an empty one falls through to serialising the whole content |
| `Messages.ContentFromElements` | backup_modified.js:36-37 | a non-empty array whose pieces are newline-free splits into one line per element: its `text` when truthy, else its serialisation |
| `Messages.ParseExamples` | backup_modified.js:15-46 | a `parts: ["hi"]` user message normalises to `{user, "hi", unknown, undefined}`; a null message yields nothing |
| `Strings.SplitJoinLines` | backup_modified.js:33 | `join("\n")` of a non-empty list of newline-free strings can be split back into them |
| `Strings.JoinLines` | backup_modified.js:33 | defines `join("\n")`: the strings in order, separated by single newlines; empty for no strings |
| `Strings.IntToDecimal` | backup_modified.js:66 | defines the template-literal rendering of an integer: a minus sign for negatives, then the decimal digits; never empty |
| `Strings.NatToDecimal` | backup_modified.js:61-66 | the rendering of a number is a non-empty string of decimal digits, ending in its units digit, with no leading zero |
| `Strings.DecimalRoundTrip` | backup_modified.js:61-66 | the rendered digits denote the number |
| `Harvest.MilestonesStep` | backup_modified.js:153-155 | before item `i` a progress line is logged iff `i % 20 == 0`, with that item's offset |
| `Harvest.Milestones` | backup_modified.js:153-155 | one logged offset per started block of 20 items: the offsets of items 0, 20, 40, … |
| `Harvest.FetchById` | backup_modified.js:103-123 | defines the fetch of one id as `fetchConversation` with its default arguments `maxAttempts = 3` and `attempt = 1`, attempt `a` being answered by `conversations(id, a)` |
| `Harvest.FetchAll` | backup_modified.js:150-161 | succeeds iff every item's fetch succeeds; then one conversation per item, in order, each the normalisation of that item's fetched raw conversation, and the progress offsets are those of items 0, 20, 40, … then `lastOffset`; on the first exhausted fetch the run throws, with no final log line |
| `Harvest.GetAllConversations` | backup_modified.js:125-163 | a failed page request aborts before any STARTING line; otherwise the STARTING lines carry `lastOffset`, the request count and the total; the run succeeds iff every distinct id's fetch succeeds, then returns one conversation per distinct id and ends its log at `lastOffset` |
| `FileName.Pad2Digits` | backup_modified.js:61-65 | `("0" + n).slice(-2)` is the tens and units digits of `n`, whose decimal value is `n mod 100` |
| `FileName.Pad2Exact` | backup_modified.js:61-65 | for `n <= 99` the padding is the digits of `n / 10` and `n mod 10`, whose decimal value is `n` |
| `FileName.Pad2` | backup_modified.js:61-65 | `("0" + n).slice(-2)` is always exactly two decimal digits |
| `FileName.DateFormat` | backup_modified.js:59-66 | the name is 15 characters longer than the rendered year (five dashes and five two-digit fields) |
| `FileName.DateFormatLayout` | backup_modified.js:59-66 | the name is the unpadded year followed by `-MM-DD-HH-MM-SS`, where the month is `getMonth()+1` and each field is its two-digit rendering |
| `FileName.DateFormatPlaces` | backup_modified.js:59-66 | after the year, dashes sit at fixed places and each field is its tens digit then its units digit at a fixed place, so the name is 15 characters longer than the year |
| `FileName.DateFormatExample` | backup_modified.js:59-66 | year 2024, month index 0, day 5, 09:03:00 gives `2024-01-05-09-03-00` |

## Left out

- `loadToken` (lines 86-91) and the bearer token. This is session I/O. A failed session lookup aborts the run before any request.
- The HTTP requests themselves. They are the `pages` and `conversations` parameters. The response bodies are already-decoded values.
- `sleep` and the async sequencing. The 1000 ms waits before each page request (line 135) and before each conversation (line 152) are not recorded.
- `downloadJson` (lines 69-84) and the top-level call (lines 165-171). They are browser I/O and glue.
- The percentage in `logProgress` (lines 53-57). It is floating point, and it divides by zero when the request count is 0. Only the logged offsets are modelled.
- The text of the `console.log` lines. The STARTING lines are modelled by their three values.
- The internals of `JSON.stringify`. The model also assumes it returns a string; in JavaScript, `JSON.stringify(undefined)` returns `undefined`.
- Inputs the model does not represent, because the JavaScript throws on them, coerces them, or stores a non-string value. These are:
  - a `parts` that is not an array;
  - a truthy non-string `text`;
  - non-string roles or model slugs;
  - an array content that carries a `parts` property;
  - a `null` element of an array content, whose `text` lookup throws a TypeError;
  - `parts` elements that are not strings, which `join` coerces (an object becomes `"[object Object]"`, `null` becomes `""`); the model's parts are strings.
- A null mapping node or a missing `mapping`. Both raise a TypeError in JavaScript. The model's nodes are always objects.
- `return res.json()` inside `fetchConversation`'s `try`. Its result is not awaited there, so a body that fails to parse escapes the retry. The model treats every attempt as either answered or failed.
- `Math.pow` in floating point and JavaScript number precision. Backoff delays and offsets are exact integers.
- `create_time` values. They are passed through as `real` and never interpreted.
- Harvest.GetAllConversations: it states how many conversations are returned and when, but not their order or contents. Of the progress log it states only the final offset on success, and nothing on failure. `Harvest.FetchAll` states the order, the contents and the whole progress log, for the deduplicated list `Collector.Dedup` returns.
- Harvest.FetchAll: does not carry the retry sleeps of its fetches. `Retry.FetchConversation` records them per call, in `delays`, but the harvest result keeps only the outcome and the progress offsets.
