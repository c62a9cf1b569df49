# SzalAI relay: a Dafny model of its reply path

`server.js` is a small HTTP relay. A client posts `{"message": ...}` to
`/ask`. The relay checks the message, trims it and cuts it to 1200
characters. It asks OpenAI's Responses API for an answer and falls back to
Chat Completions. It replaces the vendor names in whatever comes back with
the brand name "SzalAI", and answers `{"reply": ...}`.

The model covers the part of the relay that makes decisions:

- `Strings`: JavaScript's `String.prototype.trim` with its full whitespace
  set. Also `safeSlice`, the ASCII case folding of a non-Unicode `/i`
  regular expression, and the decimal rendering of a status code.
- `Brand`: `brandSwap`. A global case-insensitive replace scans left to
  right with non-overlapping matches; the model replaces `ChatGPT` first,
  then `OpenAI`.
- `Json`: a parsed JSON value and the optional-chaining reads the relay
  performs on it (`v?.key`, `v?.[0]`).
- `Responses`: `extractResponsesText`. It is defined once as a function,
  `ResponsesText`. It is also written as the source's loops,
  `ExtractResponsesText` and `CollectOutputText`, which are proved equal to
  that function.
- `Provider`: the decision chain of `callOpenAI`. The network is replaced
  by the outcome of each attempt: either it threw (network error or abort
  at the timeout) or it gave a status, a body text and the result of
  `JSON.parse` on it. The function then resolves with a reply (an answer
  or a diagnostic), or it throws.
- `AskRoute`: the `/ask` handler, which gives status 400, 200 or 500 with a
  reply string.

Three behaviours of the code may be unexpected. The model keeps each of
them as the code has it:

- A non-ok status or a non-JSON body from the Responses API is reported at
  once. Chat Completions is not tried in those cases.
- An error thrown during the Chat Completions attempt escapes
  `callOpenAI` and becomes the route's 500. So does `content?.trim()` on a
  `content` that is neither null nor a string, which throws a TypeError.
  Neither becomes diagnostic text.
- The extractor reads only `output_text` and `output`. It does not read a
  `candidates` or a `choices` field; `choices` is read only in the
  fallback.

## Model

| member | source | states |
|---|---|---|
| Strings.TrimStart | server.js:60 | the result is a suffix of the input; everything removed is JS whitespace; the result is empty or starts with a non-space |
| Strings.TrimEnd | server.js:60 | the result is a prefix of the input; everything removed is JS whitespace; the result is empty or ends with a non-space |
| Strings.Trim | server.js:60 | the result has no whitespace at either end and is no longer than the input; it is empty exactly when the input is all whitespace |
| Strings.TrimSplit | server.js:60 | every text is whitespace, then its trim, then whitespace |
| Strings.TrimOfPadded | server.js:60 | a trimmed text with whitespace added on either side trims back to itself, which characterises trim |
| Strings.TrimOfTrimmed | server.js:42-43 | a text with no whitespace at its ends is its own trim |
| Strings.TrimIdempotent | server.js:180 | trimming twice is trimming once |
| Strings.SafeSlice | server.js:36-38 | the result is a prefix of the text, or of "" when the text is absent, and is exactly min(n, length) long |
| Strings.Lower | server.js:31-32 | each ASCII capital folds to the lower-case letter 32 code points above it; every other character is unchanged |
| Strings.LowerIdempotent | server.js:31-32 | a folded character folds to itself |
| Strings.NatToString | server.js:112 | the rendering of a status is non-empty, all decimal digits, and has no leading zero unless the number is 0 |
| Strings.NatToStringRoundTrip | server.js:112 | reading the rendered digits back gives the number |
| Brand.ReplaceAll | server.js:31 | with a replacement no longer than the pattern, the result is no longer than the text; non-empty text stays non-empty; every character of the result comes from the text or the replacement (what it keeps is stated by the lemmas below) |
| Brand.KeepsUnmatchedPrefix | server.js:31 | text in which no occurrence starts is copied unchanged in front of the rest's result |
| Brand.KeepsTextBefore | server.js:31 | the text before position i is kept when no occurrence starts before i |
| Brand.ReplaceAtHead | server.js:31 | a text starting with an occurrence gives the replacement followed by the rest's result |
| Brand.ReplaceAtFirstMatch | server.js:31 | with the first occurrence at i, the result is the text before i, the replacement, then the result for the text after the occurrence |
| Brand.PrefixStaysUnmatched | server.js:31-32 | replacing after a prefix starts no new occurrence of a separated name inside that prefix |
| Brand.BrandSwap | server.js:29-33 | an absent text gives ""; the result is no longer than the input, because "SzalAI" is no longer than either name |
| Brand.BrandSeparated | server.js:31-32 | no part of "SzalAI" can start or complete an occurrence of either vendor name |
| Brand.ReplaceLeavesNoMatch | server.js:31-32 | after replacing a pattern, neither the pattern nor a name that was absent beforehand occurs, in any ASCII case |
| Brand.ReplaceAllOfFree | server.js:31 | a text without the pattern comes back unchanged |
| Brand.BrandSwapRemovesNames | server.js:29-33 | after the filter, neither "ChatGPT" nor "OpenAI" occurs, in any letter case |
| Brand.BrandSwapKeepsClean | server.js:29-33 | a text naming neither vendor passes the filter unchanged |
| Brand.BrandSwapKeepsPrefix | server.js:29-33 | text in which no vendor name starts is kept, in front of the filtered rest |
| Brand.BrandSwapReplacesChatGpt | server.js:29-33 | the first vendor name, "ChatGPT" in any case, becomes "SzalAI", with the text before it kept and the rest filtered |
| Brand.BrandSwapReplacesOpenAi | server.js:29-33 | the first vendor name, "OpenAI" in any case, becomes "SzalAI", with the text before it kept and the rest filtered |
| Brand.BrandSwapIdempotent | server.js:29-33 | filtering twice is filtering once |
| Json.Get | server.js:42 | `v?.key` finds something exactly when v is an object with that own key, and gives that field, which is part of v |
| Json.Index0 | server.js:165 | `v?.[0]` reads only arrays, objects and strings: an array gives its first element (nothing when empty), an object the value under key "0", a non-empty string a one-character string taken from its start |
| Json.AsString | server.js:42 | `typeof v === "string"` holds exactly for a string, which is returned as it is |
| Responses.PartText | server.js:54-56 | a part contributes only through its `text` field: a string `text` is used whole; otherwise the string `text.value`, or nothing |
| Responses.PartTextOfValue | server.js:56 | a part `{"text": {"value": v}}` contributes v |
| Responses.ItemText | server.js:51-58 | an item contributes only when its `content` is an array |
| Responses.ConcatMapEmptyIff | server.js:48-59 | the accumulated text is empty exactly when every element contributes nothing |
| Responses.OutputTextEmptyIff | server.js:48-59 | the `output` items give no text exactly when no item has any |
| Responses.DirectText | server.js:42-43 | the shortcut, when taken, is non-empty trimmed text from a string `output_text` |
| Responses.ResponsesText | server.js:40-64 | the extracted text never has whitespace at either end |
| Responses.ExtractResponsesText | server.js:40-64 | the source's procedure, with its loops, returns exactly ResponsesText |
| Responses.CollectOutputText | server.js:47-59 | the nested loops accumulate, in order, the text of every part of every item whose `content` is an array |
| Responses.ConcatMapAppend | server.js:48-59 | accumulating over two consecutive runs of items is accumulating over each run and joining the results |
| Responses.PartWithoutTextIsSilent | server.js:54-56 | a part with neither a string `text` nor a string `text.value` contributes nothing |
| Responses.DirectTextWins | server.js:42-43 | a non-blank string `output_text` is the answer, trimmed |
| Responses.PrefersOutputText | server.js:42-44 | non-blank `output_text` wins whatever `output` holds |
| Responses.UsesOutputArray | server.js:47-61 | without usable `output_text`, an `output` array gives the trimmed concatenation of its texts |
| Responses.NoShapeGivesEmpty | server.js:42-63 | with neither usable `output_text` nor an `output` array, the result is "" |
| Responses.ExampleOutputText | server.js:42-43 | `{"output_text": t}` with trimmed non-empty t gives t |
| Responses.ExampleOutputArray | server.js:47-60 | one item with a part `{"text": a}` and a part `{"text": {"value": b}}` gives trim(a + b) |
| Responses.ExampleNothing | server.js:40-64 | `{}`, `null` and a chat-completions `choices` envelope all give "" |
| Provider.Ok | server.js:110 | `Response.ok` as the Fetch standard defines it: a status in 200-299 (the contract restates this range as the 2xx hundreds) |
| Provider.Preview | server.js:112 | the diagnostic preview is the first min(160, length) characters of the body |
| Provider.ChatContent | server.js:165 | some content is found only in an object with a `choices` field |
| Provider.FallbackAnswersContent | server.js:151-166 | for `{"choices": [{"message": {"content": s}}]}` in an ok reply, the content read is s, and the fallback answers trim(s), or "brak odpowiedzi" when s is blank |
| Provider.ReachesFallback | server.js:122-128 | an error status or a non-JSON body from the first API never leads to the fallback |
| Provider.Render | server.js:80-165 | an answer is sent as its text; every diagnostic starts with "SzalAI: "; a diagnostic with a body preview ends with that preview |
| Provider.Fallback | server.js:131-166 | the Chat Completions attempt throws exactly when the request threw, or when an ok JSON reply has a `content` that is neither missing, null nor a string |
| Provider.CallOpenAI | server.js:77-167 | the missing-key diagnostic comes exactly when there is no key; a throw needs a key and a primary that threw or came back empty; any reply is non-empty text; an answer is trimmed |
| Provider.MissingKeyMakesNoAttempt | server.js:78-81 | without a key the result does not depend on either attempt |
| Provider.PrimaryStatusStops | server.js:108-113 | a non-ok Responses status is reported with that status and `safeSlice(raw, 160)`, whatever the fallback would give |
| Provider.PrimaryNotJsonStops | server.js:115-120 | an ok Responses body that is not JSON is reported with `safeSlice(raw, 160)`, whatever the fallback would give |
| Provider.PrimaryTextIsReply | server.js:122-123 | text extracted from the Responses reply is returned unchanged |
| Provider.FallbackConsultedIff | server.js:122-128 | the fallback's outcome matters exactly when the primary threw or extracted nothing |
| Provider.FallbackIgnoredOtherwise | server.js:110-123 | in every other case the result is the same for any fallback outcome |
| Provider.EmptyExtractionLikeThrow | server.js:122-128 | an empty extraction is handled exactly like a primary that threw |
| Provider.FallbackTable | server.js:151-166 | once reached, the fallback gives: a throw; a status diagnostic with `safeSlice(raw2, 160)`; a non-JSON diagnostic with `safeSlice(raw2, 160)`; a throw for content neither null nor a string; the trimmed content; or "brak odpowiedzi" when the content is missing or blank |
| AskRoute.AcceptedMessage | server.js:172-174 | a message is accepted exactly when `message` is a string that is not all whitespace, and it is returned as sent |
| AskRoute.SafeMessage | server.js:180 | the forwarded message is a prefix of the trimmed message, of length min(1200, trimmed length) |
| AskRoute.Ask | server.js:170-188 | status is 200, 400 or 500; 400 exactly when there is no non-blank string message, with the usage reply and no upstream call; otherwise a non-empty message is forwarded; 500 carries the fixed error reply; a 200 reply names no vendor |
| AskRoute.RejectsWithoutCalling | server.js:172-178 | a refused message gives the same 400 whatever the key and the upstream outcomes |
| AskRoute.ForwardsTrimmedPrefix | server.js:180-181 | the forwarded message is non-empty, starts with a non-space, and is the first min(1200, n) characters of the trimmed message |
| AskRoute.RepliesBrandedOnce | server.js:181-183 | a returned reply is rendered and then filtered once, and a second filter would change nothing |
| AskRoute.ServerErrorOnlyOnThrow | server.js:184-187 | for an accepted message, the status is 500 exactly when `callOpenAI` throws |

## Left out

- Express setup, CORS, rate limiting, the `/` health route and port binding: plumbing around the core.
- `fetchWithTimeout` and the network: each attempt is an input value. The 15-second timeout, the abort controller and the asynchronous ordering are not modelled.
- Request bodies sent upstream (model name, system prompt, token limits, headers): `JSON.stringify` output is not inspected by any decision.
- `JSON.parse`: its result is an input beside the body text; the model does not relate the two.
- `process.env.OPENAI_API_KEY`: the key's value is not modelled. The parameter `hasKey` says whether it is set and non-empty, because `!apiKey` treats "" as missing.
- `console.error` in the route's error handler: logging only.
- Provider.CallOpenAI: the attempts are not tied to the forwarded message, so the model states nothing about what the upstream answers for a given message.
- Strings.SafeSlice: counts characters, while JavaScript counts UTF-16 code units, so text outside the Basic Multilingual Plane is cut at a different place.
- Brand.BrandSwap: takes a string or nothing; `String()` coercion of other values does not arise, because the route only passes strings.
- Json: numbers are reals; their exact form plays no part in any decision.
