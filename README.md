# Fitness chatbot: a verified model of its pipeline and page helpers

This project models the core of a small fitness chatbot and proves properties
of the model.

The Python side turns a user's message into a reply:

- It flattens a fixed intent catalog into a training set.
- It picks an intent from the similarity scores of the lower-cased message: the
  first best-scoring phrase wins, and a best score below 0.3 means the
  `unknown` intent.
- For a workout request it extracts a day count. Six regular expressions are
  tried in order; the first match is read and clamped to 1..7, and the default
  is 3.
- It formats the intent's response template. A workout reply for 3, 4 or 5 days
  gets a day-by-day breakdown; any other count gets a generic sentence.
- An input that is empty after `strip()` gets a fixed prompt.

The browser side has a few pure helpers:

- the reason shown for a failed request;
- the trimmed message the send button submits;
- HTML escaping and the line-by-line `div` rendering of a message;
- the workout tables;
- the rule that picks which table to show beside a bot reply.

Modules, one per concern:

- `Text` (`text.dfy`): character classes, `strip`, `lower`, decimal notation,
  substring search and `str.format` with one field.
- `Regex` (`regex.dfy`): the fragment of Python's `re` that the day patterns
  use: literal characters, `\s*` and one `(\d+)` group, with `re.search` as a
  leftmost greedy matcher. It also gives a relational semantics, and proves
  that the matcher agrees with it on the table's patterns.
- `ResponseTemplates` (`templates.dfy`): the response templates, and the fact
  that only the workout template contains braces, namely its single `{days}`.
- `IntentData` (`intent_data.dfy`): the intent catalog, the pattern table and
  their getters.
- `Chatbot` (`chatbot.dfy`):
  - the specification functions of the pipeline;
  - the class `FitnessChatbot`, whose `trainingPhrases` and `trainingIntents`
    fields are filled in place by nested loops, as the source does;
  - the methods `ExtractDays`, `ExtractParameters` and `ProcessInput`, each
    proved against those functions.
- `WorkoutPlans` (`workout_plans.dfy`): the 3-, 4-, 5- and 7-day tables of the
  page.
- `ChatUi` (`chat_ui.dfy`): the page helpers.

The source's own functions that are pure are modelled as functions, and the
ones that update fields or loop are modelled as methods.

Two details of the code that the model keeps:

- `generate_response` formats only a workout request that carries a non-empty
  parameter mapping, and returns every other template unformatted.
  `ResponseTemplates.CatalogTemplates` shows that the other templates contain
  no braces, so formatting them would change nothing anyway.
- `extract_parameters` keeps a matched count only if it is truthy, that is
  non-zero. After clamping the count is never zero, so the default of 3
  applies exactly when no pattern matches (`Chatbot.ParametersFor`,
  `Chatbot.RequestedDays`).

## Model

| member | source | states |
|---|---|---|
| Text.Lower | chatbot.py:92 | lower-casing keeps the length, turns each upper-case letter into its own lower-case letter (code point + 32) and changes no other character |
| Text.LowerIdempotent | chatbot.py:132 | lower-casing twice is lower-casing once, so `extract_days` lowering the already lowered input changes nothing |
| Text.LowerAppend | chatbot.py:132 | lower-casing distributes over concatenation |
| Text.LowerContains | static/main.js:143 | lower-casing a text keeps every occurrence of a lower-case word in it |
| Text.TrimStartSuffix | chatbot.py:132 | cutting leading white space leaves a suffix of the input that does not start with white space, and everything cut off is white space |
| Text.TrimEndPrefix | chatbot.py:132 | cutting trailing white space leaves a prefix of the input that does not end with white space, and everything cut off is white space |
| Text.Strip | chatbot.py:132 | `strip()` returns the slice between two runs of white space, and the slice neither starts nor ends with white space |
| Text.StripEmptyIff | chatbot.py:132-135 | the stripped input is empty exactly when every character is white space |
| Text.ParseDigits | chatbot.py:97 | `int()` of a run of digits is a non-negative number |
| Text.ParseDigitsLeadingZeros | chatbot.py:97 | leading zeros add nothing to the value: `int("03") == int("3")` |
| Text.ParseNatToString | chatbot.py:97 | `int()` reads back the decimal notation `str()` writes |
| Text.NatToString | chatbot.py:113 | the decimal notation is a non-empty run of digits with no leading zero |
| Text.IntToString | chatbot.py:113 | `str()` of an integer is a minus sign exactly when it is negative, then decimal digits that read back as its magnitude |
| Text.FormatField | chatbot.py:113 | `format` with one named field leaves a template without braces unchanged |
| Text.ReplaceAllBraceFree | chatbot.py:113 | replacing a `{name}` field in text without braces changes nothing |
| Text.ReplaceAllSingle | chatbot.py:113 | a text whose only braces are one `{name}` field gets exactly that field replaced |
| Regex.Search | chatbot.py:95 | `re.search` gives the leftmost position where the pattern matches, or no match when it matches nowhere |
| Regex.GroupValue | chatbot.py:97 | `int(match.group(1))` of a captured run of digits is non-negative |
| Regex.GroupValueOfNotation | chatbot.py:97 | a group holding the decimal notation of a count, zero-padded or not, reads as that count |
| Regex.MatchAt | intent_data.py:87-92 | a match captures a non-empty run of digits inside the matched span |
| Regex.MatchAtomsSound | intent_data.py:87-92 | what the greedy matcher accepts, the regular expression accepts |
| Regex.MatchAtomsComplete | intent_data.py:87-92 | on patterns whose literals are neither white space nor digits, every regular-expression match is the greedy one |
| Regex.MatchAtAgreesWithRegex | intent_data.py:87-92 | on those patterns the matcher matches at a position exactly when the regular expression does |
| Regex.GroupIsGreedy | chatbot.py:97 | `group(1)` is the whole run of digits that starts the group |
| Regex.SearchFindsMatch | chatbot.py:95 | a match anywhere makes `re.search` succeed at or before it |
| Regex.MatchExtendsLeft | intent_data.py:87 | a group-first pattern that matches after a digit also matches at that digit |
| IntentData.GetIntentData | intent_data.py:96-98 | the getter returns the catalog: five intents, unique names, and a fallback that is the only intent without phrases |
| IntentData.CatalogShape | intent_data.py:7-82 | the catalog's intents in declaration order, and the well-formedness above |
| IntentData.TemplateOf | chatbot.py:108 | the template looked up belongs to an entry with that name |
| IntentData.GetParameterPatterns | intent_data.py:100-102 | the getter returns the pattern table: one key, `days`, with six patterns of the shape the matcher handles exactly |
| IntentData.DaysPatternsDeterministic | intent_data.py:85-94 | every day pattern has plain literals and ends with a literal |
| ResponseTemplates.CatalogTemplates | intent_data.py:7-82 | the workout template is its head, `{days}` and its tail, and every other template is free of braces |
| Chatbot.TrainingPhrases | chatbot.py:36-40 | every training phrase is a phrase of some catalog entry (its positions and owners are fixed by `TrainingAt` and `TrainingOrigin`) |
| Chatbot.EntryPhrases | chatbot.py:37-38 | the fallback intent contributes no phrases and every other intent contributes all of its own |
| Chatbot.TrainingPhrasesEmpty | chatbot.py:36-57 | the training set is empty exactly when no entry contributes a phrase, the case in which no vectoriser is fitted and every input is detected as the fallback |
| Chatbot.TrainingIntents | chatbot.py:31-40 | the owner list is parallel to the phrase list |
| Chatbot.TrainingIntentsKnown | chatbot.py:36-40 | no training phrase is owned by the fallback |
| Chatbot.PhrasesConcat | chatbot.py:36-40 | flattening a catalog made of two parts gives the first part's phrases, then the second's |
| Chatbot.IntentsConcat | chatbot.py:36-40 | likewise for the owners of the phrases |
| Chatbot.TrainingStep | chatbot.py:36-40 | flattening one more entry appends its phrases and that many copies of its name |
| Chatbot.TrainingAt | chatbot.py:36-40 | phrase `j` of entry `e` lands after the earlier entries' phrases, paired with `e`'s name |
| Chatbot.TrainingOrigin | chatbot.py:36-40 | every training phrase is a phrase of some non-fallback entry, paired with that entry's name |
| Chatbot.CatalogTraining | chatbot.py:31-40 | the catalog yields 46 training phrases, none owned by the fallback |
| Chatbot.ArgMax | chatbot.py:66 | `np.argmax` returns the first index of the largest score |
| Chatbot.SelectIntent | chatbot.py:56-73 | no phrases gives the fallback; otherwise the owner of the first best phrase, or the fallback when its score is below 0.3 |
| Chatbot.SelectedIsBest | chatbot.py:66-73 | a non-fallback result owns a phrase that scores at least 0.3 and that no phrase beats |
| Chatbot.Clamp | chatbot.py:99 | `min(max(d, 1), 7)` lies in 1..7, keeps values already in range and sends the others to the nearer bound |
| Chatbot.DaysFrom | chatbot.py:90-101 | no count exactly when no pattern matches; a count always lies in 1..7 |
| Chatbot.DaysFromFirstMatch | chatbot.py:94-99 | the first pattern that matches decides the count: its group, clamped |
| Chatbot.DaysFromStep | chatbot.py:94-99 | one loop step: a matching pattern returns its count and a failing one passes on to the rest |
| Chatbot.DaysPatternCovers | intent_data.py:87-92 | each longer pattern matches only where `(\d+)\s*day` matches too, no later |
| Chatbot.FirstDaysPatternDecides | intent_data.py:87-92 | the five later patterns never change the result: the first pattern alone decides it |
| Chatbot.DaysPatternCapturesRun | chatbot.py:95-97 | the captured digits are a maximal run of digits and are followed by `day` |
| Chatbot.DaysOfRequest | chatbot.py:90-101 | text without digits, then digits, optional white space and `day`, asks for those digits clamped |
| Chatbot.DaysPatternMatchesRequest | intent_data.py:87 | `(\d+)\s*day` matches such a request at its digits, with exactly those digits as the group |
| Chatbot.TenDayPlanDays | chatbot.py:99 | a request for 10 days gets 7 |
| Chatbot.PaddedDayDays | chatbot.py:94-99 | a request for "03" days gets 3, as `int("03")` reads it |
| Chatbot.ZeroDayDays | chatbot.py:99 | a request for 0 days gets 1 |
| Chatbot.ThreeDayWorkoutDays | chatbot.py:90-101 | a request for 3 days gets 3 |
| Chatbot.PlainWorkoutDays | chatbot.py:101 | "give me a workout" yields no count |
| Chatbot.NoDigitsNoDays | chatbot.py:94-101 | a text without digits yields no count from any pattern |
| Chatbot.Elaboration | chatbot.py:115-123 | 3, 4 and 5 days get their fixed breakdown and any other count gets the generic sentence |
| Chatbot.DayLinesMention | chatbot.py:117-121 | every day of a split appears as its own numbered line |
| Chatbot.WorkoutReply | chatbot.py:112-125 | the reply to a workout request for `d` days is the template formatted with `str(d)`, followed by that count's elaboration |
| Chatbot.FormatWorkoutTemplate | chatbot.py:113 | `format(days=d)` on the workout template puts `str(d)` in place of `{days}` and changes nothing else |
| Chatbot.ParametersFor | chatbot.py:75-88 | only a workout request gets parameters: exactly `days`, the extracted count when truthy, else 3 |
| Chatbot.RequestedDays | chatbot.py:79-86 | a workout request's day count lies in 1..7, is 3 when no pattern matches and is the extracted count otherwise |
| Chatbot.CatalogTemplateOf | chatbot.py:105-108 | the fallback and workout intents are in the catalog, with the fallback and workout templates |
| Chatbot.FitnessChatbot.constructor | chatbot.py:14-29 | the bot holds the catalog and the pattern table, and its training set is the flattened catalog |
| Chatbot.FitnessChatbot.PrepareTrainingData | chatbot.py:31-40 | the nested loops leave the fields equal to the flattened phrases and their owners |
| Chatbot.FitnessChatbot.AddEntry | chatbot.py:37-40 | the inner loop appends one entry's phrases and its name once per phrase; the fallback appends nothing |
| Chatbot.FitnessChatbot.DetectIntent | chatbot.py:54-73 | with no training phrases the result is the fallback; otherwise it is the selection rule on the scores of the lower-cased input |
| Chatbot.FitnessChatbot.ExtractDays | chatbot.py:90-101 | the loop returns the count of the first matching pattern, clamped to 1..7, or nothing when none matches |
| Chatbot.FitnessChatbot.ExtractParameters | chatbot.py:75-88 | a workout request gets `{days: d}` with `d` the requested count or 3; any other intent gets no parameters |
| Chatbot.FitnessChatbot.GenerateResponse | chatbot.py:103-127 | an intent the catalog lacks gets the fallback template; a workout request with a non-empty parameter map gets the template formatted with `days` (3 when the key is absent) and that count's elaboration; a workout request without parameters gets the raw workout template; any other intent gets its own template |
| Chatbot.FitnessChatbot.ProcessInput | chatbot.py:129-146 | blank input gets the prompt; otherwise the classify, extract and render composition; a workout request's reply is the reply for the requested days |
| WorkoutPlans.GetWorkoutPlan | static/main.js:207-328 | 3, 4, 5 and 7 days have a table of that many days; any other count gets the 7-day table; every table is numbered from 1, and rest days, and only they, have no exercises |
| WorkoutPlans.ThreeDayPlanHasNoRest | static/main.js:208-229 | every day of the 3-day table has exercises |
| WorkoutPlans.RestDays | static/main.js:230-327 | the 4-, 5- and 7-day tables have exactly one rest day, the third day of the 4-day table and the fourth of the others |
| WorkoutPlans.PlansWellFormed | static/main.js:208-327 | the four tables are numbered from 1, rest days have no exercises and other days have five |
| ChatUi.ExtractError | static/main.js:135-139 | the reason is never empty and is either a fixed reason or the body's `error` or `message` |
| ChatUi.ExtractErrorIgnoresBodyFor | static/main.js:136-137 | status 429 and statuses of 500 or more get their fixed reason whatever the body |
| ChatUi.ExtractErrorReadsBody | static/main.js:138 | otherwise a non-empty `error` wins over `message`, and the generic reason is used when both are empty or absent |
| ChatUi.MessageToSend | static/main.js:331-333 | nothing is sent exactly when the input is all white space; otherwise what is sent is the input with its leading and trailing white space cut off: a slice of the input, everything before and after it is white space, and it neither starts nor ends with white space |
| ChatUi.StrippedInput | static/main.js:332-333 | the trimmed input is empty exactly when the input is white space, and is otherwise the slice between the leading and the trailing white space, with no white space at either end |
| ChatUi.Entity | static/main.js:360 | each special character's entity starts with `&` and ends with `;` |
| ChatUi.EscapeHtmlAsWritten | static/main.js:359-361 | as written: the output contains no `<`, `>` or `"`, and text without special characters is unchanged |
| ChatUi.EscapeHtml | static/main.js:359-361 | the corrected escaping (one entity per character): the output contains no `<`, `>` or `"`, and text without special characters is unchanged |
| ChatUi.UnescapeEscape | static/main.js:359-361 | the corrected escaping loses nothing: reading the entities back gives the text |
| ChatUi.SpecialRun | static/main.js:360 | the `[&<>"]+` match at the front is the whole run of special characters |
| ChatUi.EscapeAsWrittenIsolated | static/main.js:359-361 | the code as written escapes correctly when no two special characters are adjacent |
| ChatUi.SpecialRunOf | static/main.js:359-361 | the pattern `[&<>"]+` matches a whole run of special characters, up to the first ordinary character or the end |
| ChatUi.EscapeAsWrittenRun | static/main.js:359-361 | as written: for every text that starts with a whole run of two or more special characters, the run becomes `undefined` and the rest is escaped on its own; with `EscapeAsWrittenSingle` and `EscapeAsWrittenPlain` this fixes the output for every input |
| ChatUi.EscapeAsWrittenSingle | static/main.js:359-361 | as written: a special character standing alone becomes its own entity |
| ChatUi.EscapeAsWrittenPlain | static/main.js:359-361 | as written: an ordinary character is copied |
| ChatUi.EscapeAsWrittenLosesRuns | static/main.js:359-361 | as written, `<<` and `&&` both become `undefined`, and `<<` cannot be read back |
| ChatUi.Split | static/main.js:66 | `split('\n')` gives at least one line and no line contains the separator |
| ChatUi.SplitCount | static/main.js:66 | there is one more line than there are line breaks |
| ChatUi.JoinSplit | static/main.js:66 | joining the split lines with the separator gives the text back |
| ChatUi.SplitJoin | static/main.js:66 | splitting lines joined by a separator they do not contain gives the lines back |
| ChatUi.ParseDivsCons | static/main.js:67 | one `div` around text without `<` is read off the front of the markup |
| ChatUi.ParseDivsOfDivs | static/main.js:65-68 | for any escaping whose output has no `<`, the markup of the lines reads back to the escaped lines, one per line |
| ChatUi.RenderMessage | static/main.js:65-68 | as written: the markup `addMessage` builds reads back as one `div` per line, holding that line escaped by `escapeHtml` as written |
| ChatUi.RenderMessageDivs | static/main.js:65-68 | as written: every message gets one `div` per line, one more than its line breaks, each holding its line escaped as written |
| ChatUi.RenderMessageRoundTrip | static/main.js:65-68 | as written: when no line has two adjacent special characters, unescaping and joining the `div`s gives the message back |
| ChatUi.RenderMessageLosesRuns | static/main.js:65-68 | as written: the message `<<` is rendered as `<div>undefined</div>` |
| ChatUi.CorrectedRenderMessage | static/main.js:65-68 | the corrected rendering (each special character escaped on its own): one `div` per line, one more than its line breaks, and unescaping and joining the `div`s gives every message back |
| ChatUi.MentionsWorkout | static/main.js:142-143 | the reply is lower-cased before the test, so any text holding the lower-case word `workout` counts as a mention |
| ChatUi.HasStandalone | static/main.js:145-147 | `/\bc\b/.test` holds only for texts that contain `c`, and holds for `c` alone |
| ChatUi.PlanDaysAsWritten | static/main.js:141-148 | as written: no table exactly when the reply does not mention a workout; otherwise a table that exists, chosen by a fixed priority: 3 if a standalone `3` appears anywhere, else 4 for a standalone `4`, else 5 for a standalone `5`, else 7 |
| ChatUi.FirstDayDigit | static/main.js:145-147 | the first standalone 3, 4 or 5 from a position on, or none |
| ChatUi.PlanDays | static/main.js:141-148 | the corrected rule: no table exactly when the reply does not mention a workout, and otherwise a table of the length it names |
| ChatUi.PlanDaysFirstDigit | static/main.js:145-147 | the first standalone 3, 4 or 5 decides the corrected rule |
| ChatUi.WorkoutReplyMentionsWorkout | static/main.js:143 | every workout reply mentions a workout, so a table is always shown for it |
| ChatUi.WorkoutAnywhere | static/main.js:143 | the word `workout` anywhere in a reply is a mention, after lower-casing |
| ChatUi.StandaloneInside | static/main.js:145-147 | a character between two non-word characters of a contained text stands alone |
| ChatUi.DayThreeLine | chatbot.py:117-121 | a breakdown of three or more days contains a standalone `3` |
| ChatUi.LeadingDigit | static/main.js:145-147 | a day digit after a digit-free head that ends in a space, and before a dash, is the first standalone day digit |
| ChatUi.WorkoutTemplateAround | intent_data.py:61 | the template puts a space before `{days}`, a dash after it and no digit in front of it |
| ChatUi.ReplyLeadsWithDays | chatbot.py:113 | in a reply for 3, 4 or 5 days, the requested count is the first standalone day digit |
| ChatUi.BreakdownShowsThreeDayPlan | static/main.js:144-147 | as written, any reply whose breakdown reaches a third day brings up the 3-day table |
| ChatUi.LongerRepliesShowThreeDayPlan | static/main.js:144-147 | as written, the replies for 4 and 5 days bring up the 3-day table |
| ChatUi.RepliesShowRequestedPlan | static/main.js:141-148 | under the corrected rule, the replies for 3, 4 and 5 days bring up the table of the requested length |

## Left out

- TF-IDF vectorising and cosine similarity are left out; they are numerical
  library code. The scores are a function `score` given to the constructor, and
  only the selection rule over them is modelled.
- The spaCy model is left out. It is loaded but never used by the pipeline.
- Python's regular-expression engine is replaced by a matcher for the fragment
  the table uses. `Regex.MatchAtAgreesWithRegex` proves that the matcher agrees
  with a relational definition of that fragment (`Regex.PatternMatches`) on
  these patterns. That the relational definition agrees with Python's engine is
  not proved: it is written from the meaning of `\s*`, `\d+` and literals.
- Text.Lower: models `str.lower()` and `toLowerCase()` on ASCII letters only,
  because Unicode case mapping is not modelled. `\d` and `int()` are likewise
  ASCII-only.
- Text.ReplaceAll: models `str.format` with a single named field. It does not
  model `{{`/`}}` escapes or format specs, which no template uses.
- The 0.3 threshold is an exact real, not a binary floating-point number,
  because scores are abstract.
- ChatUi.ExtractError: models the `error` and `message` fields as optional
  strings. Non-string JSON values, and a body that fails to parse (the fetch
  error path), are not modelled.
- ChatUi.PlanDays: the corrected rule is proved to pick the requested table for
  3, 4 and 5 days only. Replies for 1, 2, 6 or 7 days carry the count twice, in
  the formatted template (chatbot.py:113) and in the generic sentence
  (chatbot.py:123), and are not covered by a lemma.
- Chatbot.DaysFrom and Chatbot.FitnessChatbot.ExtractDays: `int()` is modelled
  as reading any run of digits. Python 3.11 and later (and patched 3.7 to 3.10)
  raise `ValueError` for a run of more than 4300 digits, which app.py:49-52
  turns into an error reply with status 500. The model clamps such a count to 7
  instead.
- The DOM, `fetch`, the typing indicator, timers, the clipboard, scrolling and
  the particle background are left out as browser I/O.
- `localStorage` persistence and history restore are left out, including the
  truncation to 200000 characters, which can cut the JSON short.
- `llm_client.py`, `app.py`, `main.py` and the tests are not part of this
  model. They are the remote-model client, the web server, the console loop and
  their test harness.

## Findings

| source | as written | input that shows it | evidently intended | confidence | as-written member | corrected member |
|---|---|---|---|---|---|---|
| static/main.js:359-361 | `/[&<>"]+/g` matches a whole run of special characters, and the run is looked up as one key of the entity table, so any run of two or more becomes the text `undefined` | `<<` or `&&` (both shown as `undefined`) | each special character replaced by its own entity (`/[&<>"]/g`) | not executed | ChatUi.EscapeAsWrittenRun | ChatUi.UnescapeEscape |
| static/main.js:144-147 | the table is chosen by testing for a standalone `3` before `4` and `5` anywhere in the reply, and the 4- and 5-day replies list a `Day 3` line | the reply to "give me a 4 day workout" (brings up the 3-day table) | the table for the count the reply states first, i.e. the requested one | not executed | ChatUi.LongerRepliesShowThreeDayPlan | ChatUi.RepliesShowRequestedPlan |

The first finding reaches the chat window through `addMessage`:
`ChatUi.RenderMessage` and `ChatUi.RenderMessageLosesRuns` model the
rendering as written (the message `<<` shows as `undefined`), and
`ChatUi.CorrectedRenderMessage` is the rendering with the corrected escaping,
for which every message reads back unchanged.
