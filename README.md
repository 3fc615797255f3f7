# Future-scenario predictor: a verified model of its request path

The application takes a question about the future and answers with three
scenarios (optimistic, realistic, pessimistic), each with a title, a
description, a probability, a confidence, a timeline, key factors and
action steps. The scenarios come from a language model or, when the
model call fails in any other way than a rate-limit or authentication
error, from three fixed Dutch fallback scenarios. This
project models the core of that path in Dafny and proves properties of it:

- `lib/validation.ts`:
  - `sanitizeInput` (module `Validation`), with its three rewrites: strip
    `<...>` tags, strip script blocks, then collapse whitespace and trim.
  - `validateQuestion`, with its ordered rejection chain and its five
    suspicious patterns.
  - the sliding-window `RateLimiter` class (module `RateLimiting`). The class
    keeps a map from identifier to admitted timestamps, which `IsAllowed`
    updates in place. The decision itself is specified by the pure
    function `Admit`.
- `lib/claude.ts` (module `Claude`):
  - `validateScenario`;
  - the fallback scenarios, with their exact texts and figures;
  - the prompt;
  - the cleaning of code fences from the reply;
  - the structure checks on the parsed reply;
  - the error classification in `catch`;
  - `generatePredictions` as a whole.
- `app/api/predict/route.ts` (module `PredictRoute`): the `POST` and `GET`
  handlers as mappings from a request to a status code and a JSON payload.

Supporting modules:

- `JsText`: the JavaScript string semantics the code relies on:
  - the `\s`/`trim()` whitespace set;
  - `\w`;
  - case folding for `/i`, as it acts on the lower-case ASCII patterns the
    validator uses;
  - `.length` in UTF-16 code units;
  - `includes`.
- `Json`: JSON values, truthiness, `typeof` tests and property access.
- `Wrappers`: `Option` and `Result`.

The world outside the code is passed in as parameters. The `Environment`
of the generator holds:

- whether the API key is configured;
- the model as a function from prompt to reply (content blocks, or a thrown
  value);
- `JSON.parse` as a function from text to an optional JSON value;
- the timestamp string that `new Date().toISOString()` would produce.

The rate limiter takes `now` as a parameter instead of reading the clock.

Some behaviour of the code as written is worth stating plainly, because
each point is proved below:

- The handlers never answer 429 or 503. The generator's "rate limit
  exceeded" and "API key authentication failed" errors both become 500
  "Failed to generate predictions".
- The handlers call neither `validateQuestion` nor the rate limiter. POST
  checks only that the raw question is a non-blank string of at most 500
  UTF-16 units. It forwards the raw, untrimmed question. So "hi" reaches
  the generator, although `validateQuestion` rejects it
  (`PredictRoute.ShortQuestionForwarded`).
- GET forwards any non-empty `q`, blank or longer than 500 units.
- The three returned scenarios need not carry distinct tags
  (`Claude.DuplicateTagsAccepted`).
- `sanitizeInput` strips tags before it strips script blocks. The script
  rewrite therefore never fires (`Validation.StripScriptsUnchanged`).
  `<script>alert(1)</script>` keeps its contents as text and becomes
  `alert(1)` (`Validation.ScriptExampleSanitized`). That text is then
  rejected as too short, not as suspicious
  (`Validation.ScriptInjectionRejected`).

## Model

| member | source | states |
|---|---|---|
| JsText.TrimStart | lib/validation.ts:24 | the result is a suffix of the input and does not start with whitespace |
| JsText.TrimStartRemovesSpace | lib/validation.ts:24 | everything removed from the front is whitespace |
| JsText.TrimEnd | lib/validation.ts:24 | the result is a prefix of the input and does not end with whitespace |
| JsText.TrimEndRemovesSpace | lib/validation.ts:24 | everything removed from the back is whitespace |
| JsText.Trim | lib/validation.ts:24 | `trim()` splits the input into whitespace, the result, and whitespace: the result is the slice starting where the leading whitespace ends, everything before and after it is whitespace, and it neither starts nor ends with whitespace |
| JsText.TrimEmptyIff | app/api/predict/route.ts:8 | `question.trim().length === 0` holds exactly when every character is whitespace |
| JsText.TrimUnchanged | lib/validation.ts:24 | a text without whitespace at its ends is its own trim |
| JsText.Utf16Length | app/api/predict/route.ts:15 | `.length` is the number of characters plus the number of characters outside the Basic Multilingual Plane (which count as two units), so between one and two units per character |
| JsText.Utf16LengthAppend | app/api/predict/route.ts:15 | `.length` of a concatenation is the sum of the lengths |
| JsText.Utf16LengthBmp | app/api/predict/route.ts:15 | inside the Basic Multilingual Plane, `.length` is the number of characters |
| JsText.Lower | lib/validation.ts:77-83 | for the lower-case ASCII patterns at lines 77-83, an `/i` match equals folding `A`-`Z` onto `a`-`z`; nothing else folds onto ASCII |
| JsText.Includes | lib/claude.ts:187-190 | `includes` is true exactly when the text occurs at some index |
| Json.Truthy | lib/validation.ts:34 | the falsy values are exactly `undefined`, `null`, `false`, zero and the empty string |
| Json.Prop | lib/claude.ts:37-47 | a property is present exactly when the value is an object with that member, and then it is that member |
| Validation.FindChar | lib/validation.ts:18 | the index of the first occurrence of a character, or none exactly when it is absent |
| Validation.StripTags | lib/validation.ts:18 | removing `<[^>]*>` leaves no `<` followed later by a `>`, never lengthens the text, and adds no `>` |
| Validation.StripTagsUnchanged | lib/validation.ts:18 | text with no `<` followed by a `>` is left unchanged |
| Validation.StripTagsPlainPrefix | lib/validation.ts:18 | text without `<` passes through the tag strip unchanged, ahead of what follows |
| Validation.StripTagsDropsSpan | lib/validation.ts:18 | a complete `<...>` span at the front is deleted |
| Validation.FindCI | lib/validation.ts:21 | a case-insensitive search returns the first occurrence at or after the start index, and nothing exactly when there is none there |
| Validation.ScriptBlockAt | lib/validation.ts:21 | a script-block match is at least 16 characters long, starts with `<` and ends with `>` |
| Validation.StripScripts | lib/validation.ts:21 | the script strip never lengthens the text |
| Validation.StripScriptsUnchanged | lib/validation.ts:18-21 | after the tag strip, the script strip changes nothing |
| Validation.ScriptBlockMatched | lib/validation.ts:21 | a `<script>...</script>` block whose contents hold no `<` is matched whole |
| Validation.ScriptBlockDeleted | lib/validation.ts:21 | on its own, the script rewrite deletes such a block, contents included |
| Validation.CollapseSpaces | lib/validation.ts:24 | after `replace(/\s+/g, ' ')`, the only whitespace is single spaces, never two in a row; the text is no longer, and empty exactly when the input is |
| Validation.NonSpace | lib/validation.ts:24 | the characters of a text that are not whitespace, in order |
| Validation.CollapseKeepsNonSpace | lib/validation.ts:24 | collapsing keeps every character that is not whitespace, in order |
| Validation.CollapseRun | lib/validation.ts:24 | a run of whitespace, of any length and kind, becomes one space ahead of what follows |
| Validation.CollapsePlainPrefix | lib/validation.ts:24 | text without whitespace passes through unchanged, ahead of what follows |
| Validation.CollapseAddsNoClose | lib/validation.ts:24 | collapsing whitespace introduces no `>` |
| Validation.CollapseKeepsNoTagClose | lib/validation.ts:24 | collapsing whitespace keeps a text free of `<` followed by `>` |
| Validation.CollapseSpacesUnchanged | lib/validation.ts:24 | single-spaced text is left unchanged |
| Validation.SanitizeInput | lib/validation.ts:14-27 | empty input gives `''`; the result is never longer than the input |
| Validation.TrimKeepsNoTagClose | lib/validation.ts:24 | trimming keeps a text free of `<` followed by `>` |
| Validation.TrimKeepsSingleSpaced | lib/validation.ts:24 | trimming keeps a text single-spaced |
| Validation.SanitizeNoTagClose | lib/validation.ts:14-27 | no sanitised text contains `<` followed later by `>` |
| Validation.SanitizeSpacing | lib/validation.ts:14-27 | a sanitised text is single-spaced and has no whitespace at either end |
| Validation.SanitizedFormUnchanged | lib/validation.ts:14-27 | a text already in sanitised form sanitises to itself |
| Validation.SanitizeIdempotent | lib/validation.ts:14-27 | sanitising twice gives the same result as sanitising once |
| Validation.TextBetweenTags | lib/validation.ts:18 | text between two tags survives the tag strip, and the tags go |
| Validation.ScriptContentsSurvive | lib/validation.ts:18-21 | the tag strip reduces a script block to its contents |
| Validation.ScriptBlockSanitized | lib/validation.ts:14-27 | a script block around sanitised-form text sanitises to that text |
| Validation.ScriptExampleSanitized | lib/validation.ts:14-27 | `<script>alert(1)</script>` sanitises to `alert(1)` |
| Validation.SearchCI | lib/validation.ts:78-82 | the test of a fixed-text `/i` pattern, defined as a search with `FindCI` from the front, is true exactly when the text occurs somewhere, ignoring case |
| Validation.SkipWord | lib/validation.ts:80 | stops at the first non-word character, having passed only word characters |
| Validation.SkipSpaces | lib/validation.ts:80 | stops at the first non-whitespace character, having passed only whitespace |
| Validation.HandlerAtIff | lib/validation.ts:80 | the one-index matcher accepts exactly where `on\w+\s*=` matches |
| Validation.SearchHandler | lib/validation.ts:80 | the search for `/on\w+\s*=/i` is true exactly when the pattern matches at some index |
| Validation.Test | lib/validation.ts:86 | `pattern.test` is true exactly when the pattern matches somewhere in the text |
| Validation.AnySuspicious | lib/validation.ts:85-92 | the loop over the patterns succeeds exactly when some pattern matches |
| Validation.CheckSanitized | lib/validation.ts:52-97 | each check on the sanitised text fails exactly when every earlier check passed; the text is accepted exactly when it has 10 to 500 units and matches no pattern |
| Validation.ValidateQuestion | lib/validation.ts:32-98 | a question is valid exactly when it is a string whose sanitised form has 10 to 500 UTF-16 units and matches none of the patterns; it then returns that sanitised form |
| Validation.ValidateQuestionOrder | lib/validation.ts:33-74 | "required", "not text", "empty", "too short" and "too long" are each returned exactly when every earlier check passed and that check failed |
| Validation.SuspiciousRejectedIff | lib/validation.ts:76-92 | "invalid characters" is returned exactly when the length checks pass and some pattern matches |
| Validation.ShortQuestionRejected | lib/validation.ts:60-66 | a question whose sanitised form is non-empty and shorter than 10 units is rejected as too short |
| Validation.ScriptBlockTooShort | lib/validation.ts:50-66 | a script block around short sanitised-form text is rejected as too short, although the raw question is 17 UTF-16 units longer: the length rule applies to the sanitised text |
| Validation.ScriptInjectionRejected | lib/validation.ts:50-66 | `<script>alert(1)</script>` is rejected as too short |
| Validation.MatchesNoneOfList | lib/validation.ts:77-92 | matching none of the list means matching none of the five patterns |
| Validation.ValidNeverSuspicious | lib/validation.ts:85-97 | an accepted question matches none of the five patterns |
| Validation.ValidIsSanitized | lib/validation.ts:94-97 | an accepted question's text sanitises to itself and has no `<` followed by `>` |
| RateLimiting.History | lib/validation.ts:118 | an unknown identifier has an empty history |
| RateLimiting.InWindow | lib/validation.ts:121 | keeps each timestamp less than `windowMs` before `now` as often as it is stored, and drops every other one |
| RateLimiting.InWindowAppend | lib/validation.ts:121 | pruning keeps the stored order: an appended timestamp is appended to the pruned history exactly when it is in the window |
| RateLimiting.InWindowKeepsAll | lib/validation.ts:121 | nothing is pruned while every timestamp is in the window |
| RateLimiting.InWindowDropsAll | lib/validation.ts:121 | everything is pruned once every timestamp has left the window |
| RateLimiting.InWindowIdempotent | lib/validation.ts:121 | pruning twice at one instant prunes nothing more |
| RateLimiting.Admit | lib/validation.ts:116-132 | admits exactly while fewer than `maxRequests` timestamps are in the window; a rejection changes nothing; an admission stores exactly the pruned history followed by `now`, at most `maxRequests` entries, and leaves other identifiers alone |
| RateLimiting.Remaining | lib/validation.ts:137-142 | never negative and at most the limit; positive exactly when the next request would be admitted; then it is the limit minus the count in the window |
| RateLimiting.AdmitKeepsBound | lib/validation.ts:123-129 | no stored history grows past the limit |
| RateLimiting.IdentifiersIndependent | lib/validation.ts:116-132 | a decision about one identifier does not change decisions about another |
| RateLimiting.ExpiredHistoryFreesSlots | lib/validation.ts:121-131 | once an identifier's requests have all expired, its next request is admitted and its history restarts |
| RateLimiting.Replay | lib/validation.ts:116-132 | one answer per request, in order |
| RateLimiting.BurstWithinOneWindow | lib/validation.ts:116-132 | requests within one window are admitted exactly while the count stays below the limit |
| RateLimiting.DefaultLimitAdmitsTen | lib/validation.ts:108-132 | with the default 10 per 60000 ms, eleven simultaneous requests: ten are admitted, then one is refused |
| RateLimiting.RateLimiter.constructor | lib/validation.ts:104-111 | the limits are set, and no requests are recorded |
| RateLimiting.RateLimiter.IsAllowed | lib/validation.ts:116-132 | the answer and the new map are those of `Admit`, and the bound on every history is kept |
| RateLimiting.RateLimiter.GetRemaining | lib/validation.ts:137-142 | returns `Remaining`, between 0 and the limit |
| Claude.TagOfName | lib/claude.ts:41 | recognises only the three tag names |
| Claude.TagNameRoundTrip | lib/claude.ts:16-41 | every tag is recognised from its own name |
| Claude.Encode | lib/claude.ts:14-23 | a scenario as a JSON object carrying its tag, probability, confidence and timeline |
| Claude.ValidateScenario | lib/claude.ts:34-49 | `validateScenario` accepts exactly the objects whose eight fields have the expected kinds and whose tag is one of the three names |
| Claude.EncodedScenarioValid | lib/claude.ts:34-49 | every well-typed scenario passes the validation |
| Claude.Fallback | lib/claude.ts:54-91 | echoes the question and timestamp; three scenarios, all valid |
| Claude.FallbackFigures | lib/claude.ts:58-88 | tags in the order optimistic, realistic, pessimistic; probabilities 25/50/25 (sum 100); confidences 70/85/75; timelines 3-6, 6-12 and 12-18 months; only the timestamp depends on the clock |
| Claude.Prompt | lib/claude.ts:100-123 | the prompt holds the question verbatim after the fixed head |
| Claude.PromptEmbedsQuestion | lib/claude.ts:100-102 | the question occurs in the prompt |
| Claude.StripJsonFences | lib/claude.ts:146 | removing `` ```json `` fences never lengthens the text |
| Claude.StripFences | lib/claude.ts:146 | removing `` ``` `` fences never lengthens the text and keeps a first character that is not a backtick |
| Claude.CleanFences | lib/claude.ts:145-146 | cleaning never lengthens the text |
| Claude.StripFencesLeavesNoFence | lib/claude.ts:146 | after the second rewrite, no three backticks remain in a row |
| Claude.CleanedHasNoFence | lib/claude.ts:145-146 | the text handed to `JSON.parse` holds no three backticks in a row |
| Claude.StripJsonFencesPrefix | lib/claude.ts:146 | text without backticks passes through the first rewrite unchanged, ahead of what follows |
| Claude.StripFencesPrefix | lib/claude.ts:146 | the same for the second rewrite |
| Claude.StripJsonFencesShort | lib/claude.ts:146 | text shorter than the fence is unchanged |
| Claude.CleanWithoutBackticks | lib/claude.ts:145-146 | a reply without backticks is only trimmed |
| Claude.JsonOpenerRemoved | lib/claude.ts:146 | a leading `` ```json `` and its newline are removed |
| Claude.CloserRemoved | lib/claude.ts:146 | a lone closing fence is removed |
| Claude.FencedReplyFirstPass | lib/claude.ts:146 | the first rewrite removes only the opening fence of a fenced reply |
| Claude.FencedReplySecondPass | lib/claude.ts:146 | the second rewrite removes the closing fence |
| Claude.FencedReplyCleaned | lib/claude.ts:145-146 | a fenced JSON reply is cleaned to its body and a newline |
| Claude.Accepted | lib/claude.ts:158-175 | an accepted reply has exactly three scenarios, all valid |
| Claude.AcceptedIff | lib/claude.ts:158-179 | a reply is accepted exactly when it is an object whose `scenarios` is an array of three valid scenarios; those are returned unchanged |
| Claude.DuplicateTagsAccepted | lib/claude.ts:165-175 | three scenarios with the same tag are accepted |
| Claude.Classify | lib/claude.ts:182-197 | "rate_limit" in an error message gives the rate-limit error; otherwise "authentication" or "api_key" gives the authentication error; everything else falls back |
| Claude.MissingBlockFallsBack | lib/claude.ts:138-196 | the `TypeError` from an empty content list ends in the fallback |
| Claude.Interpret | lib/claude.ts:125-197 | every success holds three valid scenarios, the question and the timestamp |
| Claude.GeneratePredictions | lib/claude.ts:93-198 | every success holds three valid scenarios, the question and the timestamp; without a key, the result is the fallback |
| Claude.NoKeyIgnoresModel | lib/claude.ts:95-98 | without a key, the model is never consulted |
| Claude.NonTextBlockFallsBack | lib/claude.ts:138-142 | a first block that is not text gives the fallback |
| Claude.TextReplyOutcome | lib/claude.ts:144-181 | a text reply's scenarios are returned exactly when the cleaned text parses to an acceptable structure; otherwise, including a parse failure, the fallback is returned |
| Claude.RateLimitTakesPrecedence | lib/claude.ts:186-189 | a thrown message containing `rate_limit` gives the rate-limit error, whatever else it says |
| Claude.FailureOnlyFromThrownError | lib/claude.ts:182-197 | the generator fails only with a key and a thrown `Error` |
| PredictRoute.Respond | app/api/predict/route.ts:22-31 | 200 with the result exactly when the generator succeeds, otherwise 500 "Failed to generate predictions" |
| PredictRoute.QuestionOf | app/api/predict/route.ts:6 | a question is present exactly when the body is an object with a `question` member |
| PredictRoute.ScreenQuestion | app/api/predict/route.ts:8-20 | passes exactly the non-blank strings of at most 500 units, untrimmed; the length message exactly for longer ones |
| PredictRoute.Post | app/api/predict/route.ts:4-32 | status is 200, 400 or 500; a forwarded question gets the generator's response; every 500 carries "Failed to generate predictions" |
| PredictRoute.PostBadRequestIff | app/api/predict/route.ts:8-20 | 400 exactly when the body was read but its question is not forwarded |
| PredictRoute.PostSuccess | app/api/predict/route.ts:22-24 | a 200 answer echoes the question and holds three valid scenarios |
| PredictRoute.PostRequiresQuestion | app/api/predict/route.ts:8-13 | a missing, non-string or blank question gives 400 "Question is required" |
| PredictRoute.PostLengthLimit | app/api/predict/route.ts:15-22 | the 500-unit limit applies to the raw question: 500 units pass, 501 give 400 with the length message |
| PredictRoute.GeneratorErrorsBecome500 | app/api/predict/route.ts:25-31 | the generator's errors both become 500 |
| PredictRoute.ShortQuestionForwarded | app/api/predict/route.ts:8-22 | "hi" is forwarded although `validateQuestion` rejects it as too short |
| PredictRoute.Get | app/api/predict/route.ts:35-56 | 400 "Question parameter is required" exactly for an absent or empty `q`; otherwise the generator's response |
| PredictRoute.GetAgreesWithPost | app/api/predict/route.ts:35-56 | GET and POST answer alike for a question both forward |

## Left out

- The model call's SDK is not modelled: the client, its retries and timeout, the model name, `max_tokens` and `temperature` (`lib/claude.ts:8-12`, `128-136`). The call is a function from prompt to reply in the `Environment`.
- Logging (`console.log`, `console.error`) has no effect on results and is not modelled. The module-load warning about a missing key is not modelled either.
- `process.env.ANTHROPIC_API_KEY` is only tested for presence, so it is modelled as a boolean.
- `Date.now()` and `new Date().toISOString()` are parameters. One `generatedAt` string stands for both timestamps in `generatePredictions`, the fallback's and the success's.
- Strings are sequences of Unicode scalar values, so a JavaScript string holding an unpaired surrogate (which a JSON body can carry as `"\ud800"`) cannot be represented; such questions are not modelled.
- `JSON.parse` is a function parameter that returns a value or nothing. JSON numbers are reals, and `NaN` is not modelled (`JSON.parse` never produces it).
- The regular expressions are hand-written matchers for the five patterns and the three rewrites, not a regex engine. The script pattern is modelled as matching from `<script` plus a word boundary to the first `</script>`. That is what its body `[^<]*(?:(?!<\/script>)<[^<]*)*` accepts.
- The empty-content case is modelled through the message of the `TypeError` it raises, `Cannot read properties of undefined (reading 'type')`. This is the wording of the V8 engine; other engines' wordings are not modelled.
- Async behaviour and the Next.js request and response objects are reduced to a request body (parsed value or unreadable) and a status with a payload. Concurrency between requests is not modelled.
- The error messages of `validateQuestion` are kept as data (`Validation.ErrorMessage`). No property about them is stated.
- The rate limiter stores the pruned history plus `now` only on admission, as the code does. A rejection leaves the stored list as it was. Timestamps, the request limit and the window length are unbounded integers, not doubles.
- Validation.SanitizeInput: its own contract states only the length bound and the empty case. What it guarantees is proved beside it: `SanitizeNoTagClose`, `SanitizeSpacing` and `SanitizeIdempotent`.
- Claude.StripJsonFences and Claude.StripFences: their own contracts state only length bounds. The fence removal itself is proved by the lemmas beside them.
