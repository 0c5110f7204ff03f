# aicoach-web: the explanation data path in Dafny

This project models the core of an AI code-explainer web application. The user types
code in an editor, picks a language, a level and a tone, and asks for an explanation.
The code is then processed client-side in six steps:

1. Secrets are masked (ten regular-expression replacements).
2. The code is cut to 200 lines or 10240 UTF-8 bytes.
3. It is wrapped in a level-specific prompt.
4. It is sent to a chat-completion service that answers as a server-sent event stream of
   `data:` lines.
5. The streamed Markdown answer is shown as it arrives.
6. Finally, the answer is classified into an `Explanation` by its `##` headings.

A second path explains the difference between the saved code and the current code. The
application also keeps a numbered list of saved snapshots, and a toolbar decides which
base and head versions may be compared. A prompt-driven code generator and an older,
JSON-based explain engine share the same error handling.

The modules follow the program:

| module | models |
|---|---|
| `Types` | `Explanation`, `CodeVersion`, levels, tones, the fixed messages and limits |
| `Text` | `trim`, `split`, `join`, decimal rendering of numbers, UTF-8 length |
| `Pattern` | a backtracking matcher for the regular-expression shapes `mask.ts` uses (literals, case-insensitive literals, classes with bounded or unbounded greedy counts, optional items, `\b`), and global `replace` |
| `Mask` | `maskSensitiveData` as written: the ten rules as `Pattern` expressions applied in order, with lemmas saying what each rule does to secret-shaped text; beside it, the same chain with the international telephone rule as evidently intended |
| `Truncate` | `truncateCode`, with the non-fatal UTF-8 decoding of a byte prefix |
| `Errors` | `APIError`, `createAPIError`, `handleAPIError`, `assertAPIKey` |
| `Language` | `getLanguageDisplayName` |
| `Prompt` | the `PROMPT_SECTIONS` table, `buildCodePrompt`, `buildDiffPrompt` |
| `Stream` | `createOpenAIStream`'s error branches and the `processStream` read loop (a method), against the chunk sequence as a function of the text read |
| `Extraction` | `parseMarkdownToExplanation` and `extractBulletPoints` (methods with their loops), against a fold over the classified sections |
| `ExplainStream` | the two streaming generators: key check, mask, truncate, prompt, the `for await` accumulation and the final parse |
| `Session` | `useStreamingExplanation`: a class with the five state cells and a log of setter calls; `executeStream` as a method |
| `Versions` | `useVersionControl`: a class with the four state cells; save, select, load, the selected code and the shown list |
| `Toolbar` | the three type guards, the base and head options, the disabled buttons |
| `Generate` | `generateCode`: prompt selection, response checks, fence cleanup |
| `Legacy` | `explainHeuristically` and `explainDiffHeuristically`: prompts, checks, defaults written into the parsed object, fallback, error wrapping |
| `Sidebar` | `formatDate`'s thresholds |
| `AppComponent` | the `App` component: a class with its state cells, `handleExplain`, `handleExplainDiff`, `handleSaveCode`, `handleGenerateCode`, the change handlers, `canExplainDiff` and the shown error |

Modelling choices:

- **Network responses are parameters.** A streamed response is `Ok(reads)`, `Status(code, text)` or `NoBody`. The other two requests have analogous response datatypes.
- **`JSON.parse` is a `parse` function parameter.** Wherever a payload or an answer is parsed, the function is handed in. It says whether the text parses and what `choices[0].delta.content` (or the legacy fields) hold.
- **Strings are sequences of code points.** UTF-8 length is counted per code point. Where JavaScript counts a length (`slice`), it is counted in UTF-16 code units.
- **The React state cells are class fields.** The setter calls made so far are recorded in a ghost log, so contracts can state their order as well as the final state.
- **Generators are values.** A generator is recorded as the function called and its arguments. What its consumer sees depends only on the key and the response, and the App-level contracts use that.

Where the code and the design of the system differ, the model follows the code:

- The streaming prompt takes no tone, so the tone passed by the generators is ignored.
- A `[DONE]` line is skipped and reading continues.
- `generateCode` returns a plain string.
- Nothing guards against a session that a newer request has superseded.

## Model

| member | source | states |
|---|---|---|
| Text.TrimEmptyIffBlank | src/app/App.tsx:62 | `code.trim()` is empty exactly when every character of the code is white space |
| Text.TrimStart | src/app/App.tsx:62 | the trimmed-off front is blank, and what is left is a suffix that does not start with white space |
| Text.TrimEnd | src/app/App.tsx:62 | the trimmed-off end is blank, and what is left is a prefix that does not end in white space |
| Text.JoinSplit | src/shared/lib/mask.ts:67-71 | joining the lines of a split with `\n` gives back the text |
| Text.SplitJoin | src/shared/lib/mask.ts:67-71 | splitting a `\n`-join of newline-free lines gives back those lines |
| Text.SplitNoSep | src/shared/lib/mask.ts:67 | no piece of a split contains the separator |
| Text.IntStringInjective | src/features/version-control/hooks/useVersionControl.ts:53 | different numbers render as different decimal texts, so `#n` ids of different numbers differ |
| Text.ParseNatString | src/features/version-control/hooks/useVersionControl.ts:53 | reading a rendered natural number back as decimal digits gives the number |
| Text.IntStringSign | src/features/version-control/hooks/useVersionControl.ts:53 | a rendered number is non-empty and starts with `-` exactly when it is negative |
| Text.Utf8LengthAppend | src/shared/lib/mask.ts:75-77 | the encoded length of a concatenation is the sum of the encoded lengths |
| Text.Utf8LengthAtLeastLength | src/shared/lib/mask.ts:75-77 | a text takes at least one byte per code point |
| Pattern.MatchSound | src/shared/lib/mask.ts:10-50 | every position trace the matcher returns witnesses a match of the whole expression |
| Pattern.MatchComplete | src/shared/lib/mask.ts:10-50 | whenever some trace matches at a position, the matcher finds a match there |
| Pattern.TryCountsPicks | src/shared/lib/mask.ts:10-50 | backtracking is greedy: a leading quantifier takes the largest count after which the rest matches |
| Pattern.GreedyTakesAll | src/shared/lib/mask.ts:10-50 | when the rest matches after the longest run, the whole run is taken |
| Pattern.EndAfterStart | src/shared/lib/mask.ts:10-50 | a match ends within the text, and strictly after its start when the expression needs a character |
| Pattern.RunLenMaximal | src/shared/lib/mask.ts:10-50 | a class run consists of characters of the class and stops at the first one outside it |
| Pattern.NoMatchUnchanged | src/shared/lib/mask.ts:10-50 | a global replace where nothing matches copies the text unchanged |
| Pattern.NoMatchCopies | src/shared/lib/mask.ts:10-50 | a stretch of positions where nothing matches is copied as it is, and the replacement goes on after it |
| Pattern.ReplaceWhole | src/shared/lib/mask.ts:10-50 | a match spanning the whole text replaces the whole text by the rendered replacement |
| Mask.SkTokenMasked | src/shared/lib/mask.ts:10 | `sk-` followed only by letters and digits becomes `sk-***MASKED***` with 20 or more of them, and is left untouched with fewer |
| Mask.AkiaTokenMasked | src/shared/lib/mask.ts:11 | `AKIA` followed only by letters and digits becomes `AKIA***MASKED***` with 16 or more of them, and is left untouched with fewer |
| Mask.ApiKeyMasked | src/shared/lib/mask.ts:12-15 | in an `api_key`, `api-key` or `apikey` assignment in any case, with `:` or `=`, optional spaces and quotes and a value of 20 or more letters and digits, only the value becomes `***MASKED***` |
| Mask.EmailMasked | src/shared/lib/mask.ts:24-27 | an address `user@host.tld` becomes `***@host.tld`, with a dotted domain backing off to the last dot |
| Mask.SecretAssignmentMasked | src/shared/lib/mask.ts:43-50 | in a `password` or `secret` assignment in any case, the value up to the next quote or space becomes `***MASKED***`, and the key, spaces, operator and quotes stay |
| Mask.SkTokenInContext | src/shared/lib/mask.ts:10 | inside any code, an `sk-` token between non-word characters (or the ends), where `sk-` occurs nowhere else, is masked with 20 or more letters and digits after it and kept with fewer; the text around it is kept |
| Mask.AkiaTokenInContext | src/shared/lib/mask.ts:11 | the same for an `AKIA` token, with 16 or more letters and digits |
| Mask.PlainTextKept | src/shared/lib/mask.ts:10-50 | a rule with an item that needs an ASCII letter or digit leaves a text without any unchanged |
| Mask.MaskKeepsPlainText | src/shared/lib/mask.ts:6-53 | `maskSensitiveData` as written, and the corrected chain, return a text without ASCII letters and digits unchanged: all ten passes need one |
| Mask.IntlPhoneNeverAfterNonWord | src/shared/lib/mask.ts:31-34 | the international telephone rule as written changes no text in which every `+` is at the start or after a non-word character |
| Mask.IntlPhoneAsWrittenMissesNumber | src/shared/lib/mask.ts:31-34 | as written, `+81 90-1234-5678` is left unmasked |
| Mask.IntlPhoneCorrectedMasks | src/shared/lib/mask.ts:31-34 | the corrected rule masks a whole international number with an optional space to `+81 ***-****-****` |
| Truncate.TruncateLines | src/shared/lib/mask.ts:67-72 | over the line limit, the result is the first `maxLines` lines joined with `\n` plus the marker; it splits into those lines and one marker line, so it has `maxLines + 1` lines; the byte limit plays no part |
| Truncate.TruncateLinesIdempotent | src/shared/lib/mask.ts:67-72 | truncating a line-cut result again leaves it unchanged |
| Truncate.TruncateWithinLimits | src/shared/lib/mask.ts:62-84 | code within both limits is returned unchanged |
| Truncate.TruncateBytes | src/shared/lib/mask.ts:75-81 | over the byte limit only, the result is the longest whole-code-point prefix that fits (a leading byte-order mark dropped), then a replacement character exactly when a code point was cut, then the marker; the text before the marker takes at most `maxBytes + 2` bytes |
| Truncate.FitMaximal | src/shared/lib/mask.ts:79 | the kept code points form the longest prefix whose encoding fits in the byte limit |
| Truncate.DecodePrefixShape | src/shared/lib/mask.ts:78-79 | decoding the byte prefix gives the whole code points that fit, minus a leading byte-order mark, plus one replacement character when bytes of the next code point were kept |
| Truncate.DecodeFrontShape | src/shared/lib/mask.ts:78-79 | decoding the kept bytes gives the whole code points that fit, then one replacement character exactly when bytes of the next code point were kept |
| Truncate.DecodePrefixLength | src/shared/lib/mask.ts:78-79 | the decoded prefix re-encodes to at most `maxBytes + 2` bytes |
| Truncate.TruncateSplitsCodePoint | src/shared/lib/mask.ts:79-80 | the byte cut is not code-point safe: `aé` cut at 2 bytes ends in a replacement character before the marker |
| Errors.NewApiError | src/shared/lib/errorHandling.ts:6-15 | a constructed `APIError` has name `APIError` and the given message, status and response |
| Errors.Name | src/shared/lib/errorHandling.ts:6-15 | a thrown error is named `APIError` exactly when it is an `APIError` |
| Errors.CreateApiError | src/shared/lib/errorHandling.ts:40-46 | the created error is an `APIError` carrying the status and the body; its message starts with the `OpenAI API error: ` prefix and ends with the body |
| Errors.CreatedErrorShown | src/shared/lib/errorHandling.ts:40-46 | a created error is shown as `OpenAI API error: <status> - <body>` |
| Errors.CreateApiErrorInjective | src/shared/lib/errorHandling.ts:40-46 | two created errors with the same message have the same status and body |
| Errors.HandleApiErrorMessage | src/shared/lib/errorHandling.ts:22-32 | every error object, an `APIError` included, is shown by its own message; a thrown non-error is shown as `エラーが発生しました` |
| Errors.AssertApiKeyIff | src/shared/lib/errorHandling.ts:53-59 | the key check throws exactly for a missing or empty key, and its error is shown as the missing-key message |
| Errors.SpaceKeyPasses | src/shared/lib/errorHandling.ts:56 | a key of one space passes the check |
| Errors.Rethrown | src/features/explanation/lib/explainEngine.ts:155-160 | a caught error is rethrown as a plain error whose message is the prefix and the caught message, or the prefix and the generic message for a non-error |
| Language.KnownNames | src/shared/lib/language.ts:8-19 | each of the six known ids maps to its display name |
| Language.UnknownUnchanged | src/shared/lib/language.ts:20-21 | every other id is returned unchanged |
| Language.UnknownExamples | src/shared/lib/language.ts:20-21 | worked example: `typescriptreact` and `vue` are returned unchanged |
| Language.DisplayNameIdempotent | src/shared/lib/language.ts:6-23 | applying the mapping twice is applying it once |
| Prompt.SectionsPresence | src/features/explanation/lib/promptBuilder.ts:7-92 | every level has tips; only the intermediate level has related links |
| Prompt.BlocksOfLevel | src/features/explanation/lib/promptBuilder.ts:120-138 | the paragraphs are summary, how it works, key techniques, watch out, tips, and related links at the intermediate level only, in that order |
| Prompt.AppendSectionJoin | src/features/explanation/lib/promptBuilder.ts:132-138 | appending an optional section adds exactly one more blank-line-separated paragraph, or nothing |
| Prompt.CodePromptLayout | src/features/explanation/lib/promptBuilder.ts:101-148 | the code prompt is the header, the level's paragraphs joined by blank lines, the analysis note at the advanced level only, then the input paragraph |
| Prompt.CodePromptEndsWithCode | src/features/explanation/lib/promptBuilder.ts:145 | the code prompt ends with `\n\n入力：\n` and the code verbatim |
| Prompt.AdvancedNoteBeforeInput | src/features/explanation/lib/promptBuilder.ts:140-145 | at the advanced level the analysis sentence comes right before the input; at the other levels it is absent |
| Prompt.CodePromptInstructions | src/features/explanation/lib/promptBuilder.ts:109-118 | the tone and spacing instructions occur verbatim right after the opening sentence, at every level |
| Prompt.DiffPromptInstructions | src/features/explanation/lib/promptBuilder.ts:171-178 | the diff prompt carries the same instructions verbatim right after its opening sentence |
| Prompt.LevelWordInjective | src/features/explanation/lib/promptBuilder.ts:165-170 | the three levels have three different audience words |
| Prompt.DiffRestIndependentOfLevel | src/features/explanation/lib/promptBuilder.ts:171-196 | everything after the opening sentence of the diff prompt, with its four headings, is the same at every level |
| Prompt.DiffPromptEndsWithCodes | src/features/explanation/lib/promptBuilder.ts:192-196 | the diff prompt ends with `変更前のコード：\n`, the before code, `\n\n変更後のコード：\n` and the after code |
| Stream.OpenStream | src/features/explanation/lib/streamUtils.ts:43-53 | the stream opens exactly when the response is ok |
| Stream.OpenStreamErrors | src/features/explanation/lib/streamUtils.ts:43-51 | a status that is not ok throws an `APIError` with that status and body; a missing body throws the error shown as the stream message |
| Stream.ProcessStream | src/features/explanation/lib/streamUtils.ts:62-97 | the read loop yields exactly the chunks of the concatenated reads, so where reads are cut does not matter; it returns the concatenation of the yielded chunks |
| Stream.ProcessLines | src/features/explanation/lib/streamUtils.ts:77-93 | the inner loop appends the content of every complete line, in order |
| Stream.ReadStep | src/features/explanation/lib/streamUtils.ts:73-75 | after a read, the lines completed by it follow the earlier ones, and the buffer keeps only the text after the last `\n` |
| Stream.CarryOver | src/features/explanation/lib/streamUtils.ts:73-75 | the chunks of `t + r` are those of `t` followed by those of what `t` leaves pending plus `r` |
| Stream.LineContentIff | src/features/explanation/lib/streamUtils.ts:78-91 | a line yields `c` exactly when it starts with `data: `, its payload is not `[DONE]`, the payload parses, and its content is the non-empty `c` |
| Stream.DoneDoesNotEnd | src/features/explanation/lib/streamUtils.ts:80 | a `[DONE]` line is skipped and the lines after it are still read |
| Stream.UnterminatedTailDropped | src/features/explanation/lib/streamUtils.ts:69-75 | an unterminated final line yields nothing |
| Stream.LinesContentAppend | src/features/explanation/lib/streamUtils.ts:77-93 | the content of two runs of lines is the content of each, in order |
| Extraction.SplitHeadingsPieces | src/features/explanation/lib/explainEngineStream.ts:88 | no piece of `split(/##\s+/)` contains a separator, and the first piece is a prefix of the answer |
| Extraction.SplitHeadings | src/features/explanation/lib/explainEngineStream.ts:88 | a split always has at least one piece |
| Extraction.ExtractBulletPoints | src/features/explanation/lib/explainEngineStream.ts:167-179 | the loop over the lines returns the bullet points of the content |
| Extraction.BulletPoints | src/features/explanation/lib/explainEngineStream.ts:178 | the bullet points are never an empty list |
| Extraction.NoMarkerWholeContent | src/features/explanation/lib/explainEngineStream.ts:178 | with no marked line the result is the whole content as one point |
| Extraction.EmptyContentPoints | src/features/explanation/lib/explainEngineStream.ts:178 | empty content gives `['']` |
| Extraction.PointFromMarkedLine | src/features/explanation/lib/explainEngineStream.ts:171-176 | every point is the text of a marked line with its markers stripped |
| Extraction.PointsAtMostLines | src/features/explanation/lib/explainEngineStream.ts:171-176 | each line gives at most one point |
| Extraction.NestedMarkers | src/features/explanation/lib/explainEngineStream.ts:174 | the bullet is stripped before the number: `- 1. x` gives `x` |
| Extraction.ParseMarkdownToExplanation | src/features/explanation/lib/explainEngineStream.ts:87-160 | the loop over the sections reassigning six fields, then the defaults, gives the fold of the classified sections |
| Extraction.LastOfNoneIff | src/features/explanation/lib/explainEngineStream.ts:97-136 | no section of a kind was kept exactly when no section has that kind |
| Extraction.LastOfIsLast | src/features/explanation/lib/explainEngineStream.ts:97-136 | the kept content of a kind is that of a section of that kind with no later section of the same kind: later sections overwrite earlier ones |
| Extraction.FoldSummary | src/features/explanation/lib/explainEngineStream.ts:102-103 | the summary is the content of the last summary section, or empty |
| Extraction.FoldHowItWorks | src/features/explanation/lib/explainEngineStream.ts:105-108 | how-it-works is the points of the last such section, or empty |
| Extraction.FoldTechniques | src/features/explanation/lib/explainEngineStream.ts:109-115 | key techniques are the points of the last such section, or empty |
| Extraction.FoldWatchOut | src/features/explanation/lib/explainEngineStream.ts:116-121 | watch-out is the points of the last such section, or empty |
| Extraction.FoldTips | src/features/explanation/lib/explainEngineStream.ts:122-128 | tips are the points of the last tips section, or absent |
| Extraction.FoldLinks | src/features/explanation/lib/explainEngineStream.ts:129-135 | related links are the points of the last links section, or absent |
| Extraction.ParseListsNeverEmpty | src/features/explanation/lib/explainEngineStream.ts:142-150 | the three lists are the points of the last section of their kind, or their fixed default, and are never empty |
| Extraction.ParseWatchOut | src/features/explanation/lib/explainEngineStream.ts:148-150 | watch-out is the points of its last section or its default |
| Extraction.SummaryFallsBack | src/features/explanation/lib/explainEngineStream.ts:139-141 | without summary text, the summary is a prefix of the answer that fits in 200 UTF-16 code units, the whole answer or cut where the next character would not fit, then `...` |
| Extraction.SliceUnits | src/features/explanation/lib/explainEngineStream.ts:140 | `slice(0, n)` keeps the longest prefix that fits in `n` UTF-16 code units |
| Extraction.SliceUnitsBmp | src/features/explanation/lib/explainEngineStream.ts:140 | on text inside the Basic Multilingual Plane, `slice(0, n)` keeps the first `n` characters, or all of a shorter text |
| Extraction.OptionalFieldsIff | src/features/explanation/lib/explainEngineStream.ts:122-135 | tips and related links are present exactly when a section of their kind occurs |
| Extraction.AnswerEntry | src/features/explanation/lib/explainEngineStream.ts:98-100 | the k-th section is classified by the lower-cased first line of the trimmed piece, with the trimmed rest as its content |
| Extraction.FirstMatchWins | src/features/explanation/lib/explainEngineStream.ts:102-103 | worked example of the first matching keyword group winning: a title with `変更` and `api` is a summary |
| Extraction.UpperCaseTitle | src/features/explanation/lib/explainEngineStream.ts:99 | worked example of the lower-casing of titles: `API` counts as `api` |
| ExplainStream.KeyedRun | src/features/explanation/lib/explainEngineStream.ts:24-40 | with an empty key the generator throws the key error before any prompt and yields nothing; otherwise the prompt is sent and the response consumed |
| ExplainStream.Answered | src/features/explanation/lib/explainEngineStream.ts:30-40 | a run throws exactly when the response is not ok, and then yields no chunk |
| ExplainStream.Streamed | src/features/explanation/lib/explainEngineStream.ts:30-40 | a consumed stream records the prompt sent, and throws with no chunk exactly when the response is not ok |
| ExplainStream.KeyedAnswer | src/features/explanation/lib/explainEngineStream.ts:24-40 | what a consumer receives depends only on the key and the response: the key error with no chunk, or the answer |
| ExplainStream.ExplainCodeStream | src/features/explanation/lib/explainEngineStream.ts:17-41 | `explainHeuristicallyStream` runs as the keyed run of the masked-then-truncated code prompt |
| ExplainStream.ExplainDiffStream | src/features/explanation/lib/explainEngineStream.ts:54-80 | `explainDiffHeuristicallyStream` masks (with the rules as written) and truncates both codes on their own and runs the diff prompt |
| ExplainStream.Consume | src/features/explanation/lib/explainEngineStream.ts:30-40 | the `for await` loop yields every chunk unchanged and in order, and returns the parse of their concatenation |
| ExplainStream.Drain | src/features/explanation/hooks/useStreamingExplanation.ts:54-68 | driving either generator to its end gives the keyed answer |
| ExplainStream.GeneratorAnswer | src/features/explanation/lib/explainEngineStream.ts:17-80 | the run of a generator without its prompt is the keyed answer |
| ExplainStream.ReadBoundaryIrrelevant | src/features/explanation/lib/streamUtils.ts:69-93 | splitting one read in two leaves the whole run unchanged |
| ExplainStream.StreamedExplanationComplete | src/features/explanation/lib/explainEngineStream.ts:139-150 | a returned explanation is the parse of exactly the yielded text, and its three lists are non-empty |
| ExplainStream.CodeStreamPromptEndsWithCode | src/features/explanation/lib/explainEngineStream.ts:26-28 | the code reaches the end of the prompt masked first (with the rules as written), then truncated |
| Session.ChunkUpdates | src/features/explanation/hooks/useStreamingExplanation.ts:65-67 | one content update per chunk |
| Session.StreamingSession.constructor | src/features/explanation/hooks/useStreamingExplanation.ts:30-34 | the five cells start empty and idle, with no setter call yet |
| Session.StreamingSession.Set | src/features/explanation/hooks/useStreamingExplanation.ts:30-34 | a setter call changes its cell and is logged |
| Session.StreamingSession.ExecuteStream | src/features/explanation/hooks/useStreamingExplanation.ts:40-82 | at the end the explanation is the returned one or none, the content is all chunks, the error is the shown message on a throw, and both flags are false; the log is start, one update per chunk, the end, the `finally` |
| Session.StreamingSession.Begin | src/features/explanation/hooks/useStreamingExplanation.ts:43-47 | on start loading and streaming are true and error, explanation and content are cleared |
| Session.StreamingSession.ShowChunks | src/features/explanation/hooks/useStreamingExplanation.ts:54-68 | after the loop the content is the concatenation of the chunks, one update per chunk |
| Session.StreamingSession.Conclude | src/features/explanation/hooks/useStreamingExplanation.ts:70-81 | the explanation is set only for a truthy returned value, the error only on a throw, the content is kept, and both flags are lowered |
| Session.SessionOutcome | src/features/explanation/hooks/useStreamingExplanation.ts:40-82 | from any prior state, replaying one session's setter calls gives the state `ExecuteStream` promises |
| Session.ReplayChunks | src/features/explanation/hooks/useStreamingExplanation.ts:65-67 | the chunk updates change only the content, to the concatenation of the chunks |
| Session.ReplayStart | src/features/explanation/hooks/useStreamingExplanation.ts:43-47 | from any state, the start updates leave no explanation, no content, both flags raised and no error |
| Session.ReplayEnd | src/features/explanation/hooks/useStreamingExplanation.ts:70-81 | the end and `finally` updates set the explanation for a returned value, the shown error for a throw, keep the content, and lower both flags |
| Session.ChunkUpdatesShowContent | src/features/explanation/hooks/useStreamingExplanation.ts:67 | every chunk update sets the streamed content |
| Session.ChunkUpdateAt | src/features/explanation/hooks/useStreamingExplanation.ts:50-67 | after k + 1 chunks the content shown is the first k + 1 chunks |
| Session.ExplanationAfterChunks | src/features/explanation/hooks/useStreamingExplanation.ts:55-72 | an explanation is set only after the last chunk update |
| Versions.Find | src/features/version-control/hooks/useVersionControl.ts:79 | finding an id gives the first version with it, or none exactly when no version has it |
| Versions.LoadedNextNumber | src/features/version-control/hooks/useVersionControl.ts:26 | the next number is the stored one, or one past the loaded count when the stored one is missing or 0 |
| Versions.VersionControl.constructor | src/features/version-control/hooks/useVersionControl.ts:10-13 | no versions, empty code, `#現在` selected, next number 1, which is numbered |
| Versions.VersionControl.Load | src/features/version-control/hooks/useVersionControl.ts:16-31 | a readable entry replaces the list and sets the next number; nothing else changes it |
| Versions.VersionControl.SetCurrentCode | src/features/version-control/hooks/useVersionControl.ts:11 | only the current code changes |
| Versions.VersionControl.SaveCurrentVersion | src/features/version-control/hooks/useVersionControl.ts:51-65 | the returned snapshot `#n` numbered `n` with the current code is put in front of the unchanged old list, the next number goes up by one, and the numbering is kept |
| Versions.VersionControl.SelectVersion | src/features/version-control/hooks/useVersionControl.ts:70-72 | only the selected id changes |
| Versions.VersionControl.SelectedVersionCode | src/features/version-control/hooks/useVersionControl.ts:77-79 | the current code for `#現在`, the code of the found version, or empty when none has the id |
| Versions.VersionControl.AllVersions | src/features/version-control/hooks/useVersionControl.ts:84-92 | the current row with no number and the current code, followed by the saved versions |
| Versions.SaveKeepsNumbering | src/features/version-control/hooks/useVersionControl.ts:51-65 | saving in front of a list numbered below `n` gives one numbered below `n + 1` |
| Versions.NumberedProperties | src/features/version-control/hooks/useVersionControl.ts:53-61 | in a list built by saves, ids are distinct, numbers strictly decrease from the front, none is `#現在`, and the numbers are 1 to `n - 1` |
| Versions.FindNumbered | src/features/version-control/hooks/useVersionControl.ts:77-79 | the id `#k` finds the snapshot numbered k |
| Versions.LoadContinuesNumbering | src/features/version-control/hooks/useVersionControl.ts:26 | loading a saved list without a stored number continues its numbering |
| Toolbar.ParseLevel | src/features/toolbar/components/Toolbar.tsx:31-35 | a level is accepted exactly for the three level values |
| Toolbar.ParseTone | src/features/toolbar/components/Toolbar.tsx:42-44 | a tone is accepted exactly for the three tone values |
| Toolbar.LanguageAfterChange | src/features/toolbar/components/Toolbar.tsx:90-95 | an accepted language is set; any other value leaves the language |
| Toolbar.LevelAfterChange | src/features/toolbar/components/Toolbar.tsx:118-123 | an accepted level is set with that value; any other leaves the level |
| Toolbar.ToneAfterChange | src/features/toolbar/components/Toolbar.tsx:140-145 | an accepted tone is set with that value; any other leaves the tone |
| Toolbar.OptionsPassGuards | src/features/toolbar/components/Toolbar.tsx:97-151 | every offered option passes its guard, and the level and tone guards read back the offered values |
| Toolbar.RejectedValues | src/features/toolbar/components/Toolbar.tsx:90-145 | values outside the lists, such as `TypeScript`, never reach a handler |
| Toolbar.NumberedIds | src/features/toolbar/components/Toolbar.tsx:187-189 | at most one id per version |
| Toolbar.NumberedIdsFilter | src/features/toolbar/components/Toolbar.tsx:187-189 | `filter` then `map`: the ids of a concatenation are the ids of its parts in order, and one version gives its id exactly when it has a number |
| Toolbar.NumberedIdsIff | src/features/toolbar/components/Toolbar.tsx:185-190 | an id follows `-` exactly when a numbered version has it |
| Toolbar.BaseExcludesCurrent | src/features/toolbar/components/Toolbar.tsx:185-190 | the base options never offer `#現在` and offer every saved version |
| Toolbar.HeadOptions | src/features/toolbar/components/Toolbar.tsx:201-209 | one option per version, with its id and its disabled mark |
| Toolbar.HeadNeverDisabled | src/features/toolbar/components/Toolbar.tsx:202-203 | the current row and a candidate with the base's number are never disabled |
| Toolbar.HeadDisabledOlder | src/features/toolbar/components/Toolbar.tsx:201-209 | on the shown list, the disabled heads are exactly the versions older than the base |
| Generate.GenerateCode | src/features/code-generation/lib/generateCode.ts:23-121 | the key check comes first; a failed status throws the wrapped `APIError`; empty content throws the wrapped empty-code message; otherwise the cleaned content is returned |
| Generate.Prompts | src/features/code-generation/lib/generateCode.ts:32-71 | the modification prompts are used exactly when the existing code is present and non-blank |
| Generate.BlankExistingCodeIsNew | src/features/code-generation/lib/generateCode.ts:32 | a missing or blank existing code asks for new code |
| Generate.ModifyPromptShape | src/features/code-generation/lib/generateCode.ts:57-66 | in modification mode the existing code sits in a block fenced with the language id, and the request follows |
| Generate.FencedAnswerCleaned | src/features/code-generation/lib/generateCode.ts:110-113 | a fenced answer comes back as its trimmed body |
| Generate.OneOpeningFenceOnly | src/features/code-generation/lib/generateCode.ts:111 | only one opening fence is removed |
| Generate.UnfencedAnswerTrimmed | src/features/code-generation/lib/generateCode.ts:110-113 | an answer without fences is only trimmed |
| Legacy.ExplainHeuristically | src/features/explanation/lib/explainEngine.ts:24-161 | the key check comes first and is not wrapped; the prompt carries the masked, then truncated, code; the result is the checked answer |
| Legacy.ExplainDiffHeuristically | src/features/explanation/lib/explainEngine.ts:173-290 | the same for the diff, with both codes masked (with the rules as written) and truncated on their own |
| Legacy.Request | src/features/explanation/lib/explainEngine.ts:83-160 | the checks and the in-place defaults give the answer function |
| Legacy.AcceptNeverEmpty | src/features/explanation/lib/explainEngine.ts:122-154 | an accepted answer always has a summary and two non-empty lists; an unusable answer gives the fallback; a usable one keeps its fields, with defaults only for empty lists |
| Legacy.AnswerErrors | src/features/explanation/lib/explainEngine.ts:109-160 | a failed status and an empty answer throw behind the `API エラー: ` prefix; non-empty content resolves |
| Legacy.LegacyPromptEndsWithCode | src/features/explanation/lib/explainEngine.ts:40-81 | the prompt is the intro, the level's schema, the analysis line at the advanced level only, then `コード：` and the code last |
| Legacy.LegacyDiffEndsWithCodes | src/features/explanation/lib/explainEngine.ts:196-210 | the diff prompt ends with the before code and then the after code |
| Sidebar.FloorDiv | src/features/version-control/components/VersionSidebar.tsx:24-26 | the quotient is rounded down, for negative differences too |
| Sidebar.FormatAgeRanges | src/features/version-control/components/VersionSidebar.tsx:21-37 | under a minute, a negative difference included, is just now; then minutes, hours and days in their ranges; from seven days on the locale date |
| Sidebar.FormatAgeMonotone | src/features/version-control/components/VersionSidebar.tsx:28-33 | a larger difference never gives a finer label |
| Sidebar.FormatDateExamples | src/features/version-control/components/VersionSidebar.tsx:28-36 | worked example: the labels at the thresholds |
| AppComponent.EndOf | src/features/explanation/hooks/useStreamingExplanation.ts:55-62 | a returned explanation is a truthy end with that value; a thrown error is a failing end with that error |
| AppComponent.SessionViewIsReplay | src/features/explanation/hooks/useStreamingExplanation.ts:40-82 | whatever the session showed before, one answer's setter calls leave it showing that answer |
| AppComponent.DisplayedError | src/app/App.tsx:47 | the shown error is the stream error when it is a non-empty message, otherwise the validation error |
| AppComponent.StaleStreamErrorHidesValidation | src/app/App.tsx:47 | a stale stream error hides a fresh blank-code message |
| AppComponent.IsValidRequest | src/app/App.tsx:118 | reading `isValidRequest` off the returned string is always falsy |
| AppComponent.App.constructor | src/app/App.tsx:25-42 | the initial cells, level, tone, language and key, and a fresh idle session |
| AppComponent.App.Error | src/app/App.tsx:47 | the error passed to the panel |
| AppComponent.App.Set | src/app/App.tsx:25-42 | one setter call changes its cell and is logged |
| AppComponent.App.SetAll | src/app/App.tsx:25-42 | several setter calls, replayed in order |
| AppComponent.App.Drive | src/app/App.tsx:70 | awaiting the session leaves it showing the keyed answer and logs its updates |
| AppComponent.App.Consume | src/app/App.tsx:70 | the session consumes the answer |
| AppComponent.App.Explaining | src/app/App.tsx:67-71 | the validation error is cleared, the flag raised, the session driven, the flag lowered |
| AppComponent.App.EditCode | src/app/App.tsx:166 | the editor's change sets only the code |
| AppComponent.App.ChangeLanguage | src/app/App.tsx:141 | the language after the guard |
| AppComponent.App.ChangeLevel | src/app/App.tsx:137 | the level after the guard |
| AppComponent.App.ChangeTone | src/app/App.tsx:139 | the tone after the guard |
| AppComponent.App.HandleExplain | src/app/App.tsx:61-72 | blank code sets the no-code message and leaves the session untouched; otherwise the error is cleared, the session shows the keyed answer for the current code, and the flag is down again |
| AppComponent.App.HandleSaveCode | src/app/App.tsx:77-80 | the saved code becomes the current code |
| AppComponent.App.HandleExplainDiff | src/app/App.tsx:85-103 | either code blank sets the diff message and leaves the session untouched; otherwise a diff from the saved code to the current code is streamed between the flag's raising and lowering |
| AppComponent.App.GenerationOutcome | src/app/App.tsx:115 | the request is made with the current language, key and code; an empty key fails with the key error |
| AppComponent.App.HandleGenerateCodeAsWritten | src/app/App.tsx:110-131 | as written: the code never changes; a failure shows its message |
| AppComponent.App.HandleGenerateCode | src/app/App.tsx:110-131 | as intended: generated code replaces the code, a failure shows its message, and the flag is down at the end |
| AppComponent.StreamStartedIff | src/app/App.tsx:61-103 | explaining streams exactly for non-blank code; diff explaining exactly when both codes are non-blank |
| AppComponent.ExplainBracketsStream | src/app/App.tsx:67-71 | the validation clear and the flag's raising come before the stream and its lowering after; the generator gets the current code and options |
| AppComponent.DiffBracketsStream | src/app/App.tsx:91-102 | the same for the diff, whose generator compares the saved code (before) with the current code (after) |
| AppComponent.EnabledExplainStreams | src/app/App.tsx:61-72 | when the toolbar enables Explain, a stream starts |
| AppComponent.EnabledDiffCanBeRejected | src/app/App.tsx:145 | an enabled diff button can still be rejected when one of the codes is blank |
| AppComponent.EnabledDiffStreams | src/app/App.tsx:85-103 | with both codes non-blank and different, an enabled diff button starts a stream |
| AppComponent.SaveDisablesSaveAndDiff | src/app/App.tsx:145 | right after a save, Save and diff explain are disabled until the code changes |
| AppComponent.EmptyKeyShown | src/app/App.tsx:69-70 | an empty key shows the key message, no explanation and no text |
| AppComponent.StatusShown | src/app/App.tsx:69-70 | a status that is not ok shows the API error with status and body, and no text |
| AppComponent.SuccessShown | src/app/App.tsx:69-70 | an ok response shows an explanation and all the streamed text, and only the cleared validation error |
| AppComponent.GenerationDiscardedAsWritten | src/app/App.tsx:118-122 | as written, no outcome changes the code, and a success shows the warning |
| AppComponent.GenerationDiscardedExample | src/app/App.tsx:115-122 | a concrete generated answer `a` is discarded and the warning shown |
| AppComponent.GenerationApplied | src/app/App.tsx:124-130 | as intended, a success sets exactly the generated code, a failure sets the error and never the code, and the flag is raised first and lowered last |

## Left out

- Network I/O: `fetch` and the request bodies (model, temperature, tokens, headers) are not modelled. Each response is a parameter.
- `JSON.parse` is a parameter, and its result is abstracted to the fields read. Any other shape of the parsed JSON is out of the model.
- `TextDecoder` in the stream: reads are taken as already-decoded text. A multi-byte character split across reads is out of the model. `TextDecoder` in `truncateCode` is modelled on code points.
- Errors thrown by a read in the middle of a stream: only the status and missing-body errors are modelled.
- `toLowerCase` is exact for ASCII and for the classification keywords. Other Unicode case mappings are out of the model.
- `async`/`await`, scheduling and React rendering: handlers run to completion in order. Nothing guards against a superseded session, and none is invented.
- `sessionStorage` writes, the API-key hook with `localStorage`, the theme, the snackbar, the editor, the prompt input, the resizable panes and all styling. `Load` receives what the storage read gives.
- `toLocaleDateString` in `formatDate` is an opaque label given as a parameter. `new Date()` is an integer difference in milliseconds.
- The legacy `alternative` field is carried through unchanged. Console logging is not modelled.
- Mask: the JWT, domestic telephone and card rules are modelled as expressions, but no lemma describes what they mask. The only lemma that follows a text through all ten passes is about text without ASCII letters and digits: a later rule can rewrite an earlier rule's output.
- Mask.ApiKeyMasked: whole text only. It states the rule on a text that is exactly the assignment, not on an assignment inside other code.
- Mask.EmailMasked: whole text only. It states the rule on a text that is exactly the address, not on an address inside other code.
- Mask.SecretAssignmentMasked: whole text only. It states the rule on a text that is exactly the assignment, not on an assignment inside other code.
- Mask.SkTokenMasked: whole text only. Mask.SkTokenInContext states the rule inside other code.
- Mask.AkiaTokenMasked: whole text only. Mask.AkiaTokenInContext states the rule inside other code.
- Mask.SkTokenInContext: only for code in which `sk-` occurs once, because the proof follows one token. Code with several tokens is out of the lemma.
- Mask.AkiaTokenInContext: only for code in which `AKIA` occurs once, for the same reason.
- Extraction.SliceUnits: when the 200th code unit is the first half of a surrogate pair, JavaScript keeps that lone half; the model stops before the character, since a Dafny `char` cannot be half a pair.
- ExplainStream.KeyedAnswer: the App-level contracts name the generator and its arguments rather than the prompt text. The prompt a generator sends is stated by its own contracts.
- Pattern: `Match` is proved sound and complete for a match at a given position. That it returns the same match as JavaScript's leftmost backtracking is argued from its structure, not proved against a reference engine.

## Findings

| source | as written | input that shows it | evidently intended | confidence | as-written member | corrected member |
|---|---|---|---|---|---|---|
| src/shared/lib/mask.ts:31-34 | `\b(\+81…)` requires a word character right before `+`, so a number at the start of a line or after a space is never masked | `+81 90-1234-5678` is left as it is | mask international numbers wherever they stand, e.g. without the leading `\b` | high, not executed | Mask.IntlPhoneAsWrittenMissesNumber | Mask.IntlPhoneCorrectedMasks |
| src/app/App.tsx:118-125 | `generateCode` returns a string, and `result.isValidRequest` on a string is `undefined`, so every successful generation shows the warning and the code is never replaced | request `x` in Go answered with `a` | set the generated code when there is one | high, not executed | AppComponent.GenerationDiscardedAsWritten | AppComponent.GenerationApplied |
