# Quiz app core in Dafny

A model of the two scripts that carry the logic of a browser quiz application:

- **`js/data.js`, the progress store.** It holds the question lists of the configured modules (`questionsData`) and the user record: a name, the time of the last save, and a progress table `module → (questionId → {seen, correct, incorrect, lastSeen})`. It creates placeholder entries lazily, bumps counters once per answer, saves the record to and loads it from the browser's local storage, and computes two percentages from the table: per module, and overall.
- **`js/app.js`, the session controller.** It is a four-screen state machine (login, module selection, quiz, results) over the session counters (`currentModule`, `currentQuestions`, `currentQuestionIndex`, `correctAnswers`, `incorrectAnswers`, `quizSeconds`). Around it sit the pure helpers that turn counters into a score, elapsed seconds into `MM:SS` text, and scores into feedback bands.

The Dafny modules:

- `Rounding` (`rounding.dfy`): `Math.round` on the non-negative rationals the app rounds, taken on their exact values. For x ≥ 0, `Math.round(x)` is floor(x + 1/2). The source rounds a double instead; where the two differ is listed under "Left out".
- `Decimal` (`decimal.dfy`): `Number.prototype.toString` on naturals, its inverse, and `String.prototype.padStart`.
- `QuizData` (`data.dfy`): the store as a class `Store` with the fields of `js/data.js`. Each method is proved against pure specification functions:
  - `TopUp` for the placeholder loop;
  - `RecordAnswer` for one answer;
  - `CorrectCount`, `ModuleProgress` and `OverallProgress` for the aggregations.
  The lemmas beside them prove what those functions guarantee.
- `QuizApp` (`app.dfy`): the controller as a class `Session` with the session variables of `js/app.js`, plus the pure helpers.
  - `State()` snapshots all the variables, so each transition states its complete new state.
  - `Valid()` is the invariant every transition keeps: the timer runs exactly while a quiz is on screen, a quiz on screen shows an existing question, each question counts at most once, and the results screen comes after the last question.

Mutable state is modelled on values:
- The local storage slot is `storage: Option<Blob>`.
- `Blob` is what `JSON.parse` yields: unparseable, or an object whose `username`, `progress` and `lastSession` fields may each be absent, with a string, a progress table and a time stamp where present.
- Saving stores the record's encoding. Loading applies the structure check of `js/data.js:110` to such values; its truthiness test on other JSON values is listed under "Left out".

Two further choices:
- A `NaN` result is `None`.
- `confirm(...)` becomes a boolean parameter. Any place that needs the current time (the ISO time stamp from `new Date()`) takes it as a parameter `now`.

## Model

| member | source | states |
|---|---|---|
| Rounding.RoundDiv | js/data.js:194 | `Math.round(num/den)` for num ≥ 0, den > 0: the integer r with r ≤ num/den + 1/2 < r + 1 (fractions cleared) |
| Rounding.RoundDivUnique | js/data.js:194 | only one integer satisfies that rounding inequality, so any r meeting it is the rounded value |
| Rounding.RoundDivMonotone | js/data.js:194 | a larger numerator never rounds to less |
| Rounding.RoundDivAtMost | js/data.js:194 | a quotient at most k rounds to at most k (a mean of percentages stays ≤ 100) |
| Rounding.Percent | js/data.js:179 | `Math.round(part / whole * 100)`: the nearest integer to 100·part/whole, halves up, and at most 100 when part ≤ whole |
| Rounding.PercentMonotone | js/data.js:179 | more correct answers out of the same total never give a lower percentage |
| Decimal.NatToString | js/data.js:73 | the text of an index in a question id: digits only, no leading zero, a single digit exactly below 10 |
| Decimal.ParseNatToString | js/data.js:73 | reading the decimal text back gives the number |
| Decimal.NatToStringInjective | js/data.js:73 | distinct indices have distinct text |
| Decimal.PadStart | js/app.js:472 | `padStart(width, fill)`: length max(len, width), the original string as suffix, fill characters before it |
| Decimal.PadStartZeroValue | js/app.js:472 | zero padding keeps the string all digits and keeps the value read back |
| QuizData.QuestionKeyParts | js/data.js:73 | the id `<module>_<index>`: the module id, an underscore, then digits that read back as the index |
| QuizData.QuestionKeyInjective | js/data.js:204 | two indices of one module with the same id `<module>_<index>` are equal, so no two questions share an entry |
| QuizData.Answered | js/data.js:218-227 | one answer adds exactly 1 to `seen`, exactly 1 to `correct` when correct and to `incorrect` otherwise, leaves the other counter as it was, stamps `lastSeen`, and keeps `seen == correct + incorrect` |
| QuizData.RecordAnswer | js/data.js:203-231 | the answered question has an entry afterwards; counting a missing entry as the zero placeholder, `seen` and the answer's counter go up by exactly 1, the other counter is unchanged, and `lastSeen` is the answer's time |
| QuizData.RecordAnswerFrame | js/data.js:203-231 | recording an answer keeps the modules, changes no other module and no other question of the module, adds at most that question's id, and preserves `seen == correct + incorrect` everywhere |
| QuizData.TopUp | js/data.js:70-85 | the placeholder loop over the first n indices, in ascending order; what it does is stated by the lemmas below |
| QuizData.TopUpCovers | js/data.js:70-85 | after the placeholder loop, each of the module's first n indices has an entry |
| QuizData.TopUpExtends | js/data.js:76-83 | the placeholder loop keeps every existing entry as it was |
| QuizData.TopUpAddsPlaceholders | js/data.js:76-83 | every entry the loop adds is the zero placeholder for one of the first n indices |
| QuizData.TopUpNoop | js/data.js:76 | a map that already has entries for the first n indices is left unchanged |
| QuizData.TopUpIdempotent | js/data.js:70-85 | running the placeholder loop twice is the same as running it once |
| QuizData.TopUpConsistent | js/data.js:77-82 | placeholders keep `seen == correct + incorrect` |
| QuizData.TopUpTable | js/data.js:70-85 | topping up one module of the table keeps every entry of every module, covers the module, and keeps the counters consistent |
| QuizData.WithModuleMapsFacts | js/data.js:24-31 | giving the configured modules a map adds exactly the missing ones, each empty, and keeps every existing map |
| QuizData.WithFetchedAt | js/data.js:52-53 | after loading, each fetched configured module has its fetched list, and every other list is as before |
| QuizData.LoadedProgressFacts | js/data.js:52-55 | loading keeps the modules of the progress table and all their entries, adds nothing but zero placeholders for indices below the fetched module's question count, keeps the counters consistent, and covers every fetched module that has a map |
| QuizData.LoadingFacts | js/data.js:38-64 | the whole load (empty maps for missing configured modules, then the top-ups): the table gains exactly the missing configured modules, keeps every entry, adds only zero placeholders for fetched questions, keeps counters consistent, and covers every fetched configured module |
| QuizData.CorrectCount | js/data.js:168-177 | the count of indices below n whose entry has `correct > 0` never exceeds n, which bounds the module percentage by 100 |
| QuizData.ModuleProgress | js/data.js:162-180 | 0 for a module without questions; otherwise the rounded percentage of its questions whose entry has `correct > 0`, which lies in [0, 100] |
| QuizData.CorrectCountWithPlaceholders | js/data.js:172-177 | zero placeholders are never mastered, so adding them keeps every mastered count |
| QuizData.LoadingKeepsProgress | js/data.js:162-180 | adding placeholders for fetched questions changes no module's progress |
| QuizData.MasteredAfterAnswer | js/data.js:174 | after an answer, only the answered question can change mastery, and it is mastered iff the answer was correct or it already was |
| QuizData.CorrectCountAfterSet | js/data.js:172-177 | replacing one question's entry moves the mastered count by exactly the change in that question's mastery, and not at all when the question is outside the counted range |
| QuizData.CorrectCountAfterAnswer | js/data.js:221-225 | an answer raises the module's mastered count by 1 exactly when it is a first correct answer to one of the module's questions, and otherwise leaves it unchanged |
| QuizData.ModuleProgressAfterAnswer | js/data.js:162-180 | no module's progress decreases when an answer is recorded, and an incorrect answer changes no module's progress |
| QuizData.FirstCorrectAnswerCounts | js/data.js:174 | a correct answer to a question not yet mastered adds exactly one to its module's count |
| QuizData.Mean | js/data.js:194 | undefined (`NaN`) exactly for an empty list; the rounded mean is ≤ 100 when every value is ≤ 100 |
| QuizData.ProgressValues | js/data.js:190-192 | one value per configured module, in order: that module's progress |
| QuizData.OverallProgress | js/data.js:186-195 | `NaN` exactly when no module is configured, otherwise a percentage in [0, 100] |
| QuizData.OverallProgressCongruent | js/data.js:186-195 | overall progress depends only on the per-module percentages: equal percentages give equal overall progress |
| QuizData.LoadingKeepsOverallProgress | js/data.js:186-195 | adding placeholders for fetched questions changes no overall progress |
| QuizData.OverallIsUnweighted | js/data.js:186-195 | for any table and bank where one module has 1 of 2 questions mastered and another all 10 of 10, the overall progress of the two is 75%, not the 92% that weighting by question count would give |
| QuizData.Decode | js/data.js:110-113 | a parsed value is accepted iff it has a non-empty `username` and a `progress` field, and then becomes the record with those fields |
| QuizData.Encode | js/data.js:95 | the record as saved; what loading makes of it is stated by `SaveLoadRoundTrip` |
| QuizData.StoredRecord | js/data.js:103-113 | an empty slot loads nothing, a filled one loads what `Decode` accepts |
| QuizData.SaveLoadRoundTrip | js/data.js:90-120 | a saved record loads back unchanged when it has a user name, and is rejected when the name is empty |
| QuizData.Store.constructor | js/data.js:11-18 | no questions, an anonymous record with an empty table and no session time, and the given storage slot |
| QuizData.Store.InitializeQuestionsData | js/data.js:23-32 | every configured module's list becomes empty and every other list stays; the table becomes `WithModuleMaps` of the old one: every configured module gets a map, existing maps are kept, new maps are empty; counters stay consistent |
| QuizData.Store.InitializeQuestionProgress | js/data.js:70-85 | the module's map becomes its top-up to the module's question count, and nothing else changes |
| QuizData.Store.ModuleLoaded | js/data.js:52-55 | the module's list becomes the fetched one and its map is topped up to that length, and nothing else changes |
| QuizData.Store.LoadAllQuestions | js/data.js:38-64 | each configured module holds its fetched list (empty if the fetch failed) and other lists are kept; the table becomes the old one with empty maps added for missing configured modules and each fetched module topped up; so it gains exactly those modules, every fetched module has entries for all its questions, no existing entry changes, and every new entry is a zero placeholder for a fetched question; counters stay consistent; name, session time and storage are kept |
| QuizData.Store.SaveUserData | js/data.js:90-96 | the session time becomes `now`, the record is otherwise kept, and storage holds its encoding |
| QuizData.Store.LoadUserData | js/data.js:102-120 | returns true iff storage holds a record passing the structure check, which then replaces the record; otherwise the record is untouched |
| QuizData.Store.SetUsername | js/data.js:126-129 | the name is replaced and the record saved, with the rest kept |
| QuizData.Store.GetUsername | js/data.js:135-137 | the current user name |
| QuizData.Store.GetModuleQuestions | js/data.js:144-146 | the module's questions, or none when it was never initialised |
| QuizData.Store.GetModuleProgress | js/data.js:153-155 | the module's progress map, or an empty one when it has none |
| QuizData.Store.UpdateQuestionProgress | js/data.js:203-231 | the table becomes `RecordAnswer` of the old table (placeholder first if missing, then one answer counted); the name is kept; the session time is `now`; the record is saved |
| QuizData.Store.ClearUserData | js/data.js:236-249 | the record becomes anonymous, with no session time and one empty map per configured module; storage is emptied |
| QuizData.Store.CalculateModuleProgress | js/data.js:162-180 | the module's progress as `ModuleProgress` defines it |
| QuizData.Store.CalculateOverallProgress | js/data.js:186-195 | the unweighted rounded mean of the configured modules' progress as `OverallProgress` defines it (`None` for no modules) |
| QuizApp.ScorePercentage | js/app.js:383-384 | 0 when nothing was answered, otherwise the nearest integer to 100·correct/(correct + incorrect); always in [0, 100] |
| QuizApp.ScoreExamples | js/app.js:384 | 2 of 3 scores 67, 1 of 2 scores 50, 1 of 8 (12.5) scores 13 as halves round up, an empty session scores 0 |
| QuizApp.ScoreMonotone | js/app.js:384 | with the same number of answers, more correct answers never score less |
| QuizApp.AnalysisFor | js/app.js:416-428 | the analysis tier of a score: at least 90, 80, 70, 60, 40, or below 40, each tier exactly its interval |
| QuizApp.CircleFor | js/app.js:397-405 | the score circle colour: green from 80, yellow from 60, orange from 40, red below, each exactly its interval |
| QuizApp.BadgeFor | js/app.js:174-199 | the badge and bar colour of a percentage: success from 80, warning from 40, primary below, each exactly its interval |
| QuizApp.AnalysisMonotone | js/app.js:416-428 | the six-tier analysis message never gets worse as the score rises |
| QuizApp.BandingsNest | js/app.js:397-405 | the circle colour is a function of the analysis tier (90/80 → green, 70/60 → yellow, 40 → orange, else red), and the badge colour of the circle colour |
| QuizApp.BandingsDiffer | js/app.js:174-183 | the bandings are distinct: 50 and 70 share a badge colour but not a circle colour; 85 and 95 share a circle colour but not a message |
| QuizApp.TwoDigits | js/app.js:472 | `n.toString().padStart(2, '0')`: all digits, at least two, exactly two below 100, no leading zero when longer than two, and it reads back as n |
| QuizApp.Clock | js/app.js:472 | `MM:SS` text whose fields read back as the given minutes and seconds, five characters long when minutes < 100, and no leading zero in a longer minutes field |
| QuizApp.FormatTime | js/app.js:468-473 | `MM:SS` text that reads back as the elapsed seconds; the seconds field is below 60; five characters below 6000 s, longer beyond (minutes are not wrapped, and then start with a non-zero digit) |
| QuizApp.ClockFields | js/app.js:469-470 | in such text the fields are the whole minutes (`Math.floor(s / 60)`) and the remaining seconds (`s % 60`) |
| QuizApp.FormatTimeInjective | js/app.js:468-473 | distinct elapsed times are shown as distinct text |
| QuizApp.TwoDigitsPadsOneDigit | js/app.js:472 | 3 is shown as `03` |
| QuizApp.TwoDigitsKeepsTwoDigits | js/app.js:472 | 75 is shown as `75` |
| QuizApp.SkipWhitespace | js/app.js:121 | the first index from a given one whose character is not ECMAScript white space; everything skipped is white space |
| QuizApp.BackOverWhitespace | js/app.js:121 | the end of a slice once its trailing ECMAScript white space is dropped; everything dropped is white space |
| QuizApp.Trim | js/app.js:121 | `trim()` is the slice of the input that starts at its first non-white-space character, with only white space before and after it; it is empty exactly when the input is all white space, and otherwise starts and ends with non-white-space |
| QuizApp.TrimIdempotent | js/app.js:121 | trimming twice is trimming once |
| QuizApp.Session.Valid | js/app.js:252-270 | the invariant every transition keeps (see above); what it guarantees is stated by the transitions' contracts |
| QuizApp.Session.Score | js/app.js:383-384 | the score shown on the results screen, at most 100 |
| QuizApp.Session.constructor | js/app.js:10-19 | the initial session variables: no user, no module, no questions, zero counters, timer off, login screen |
| QuizApp.Session.Init | js/app.js:35-63 | loads the lists (the configured modules are added to the question lists, every other list is kept); a stored record that passes the check becomes the record and logs its user in (module selection); otherwise login is shown and the record keeps its name and session time while its table is the loaded one (empty maps and placeholders added); storage is not written |
| QuizApp.Session.HandleLogin | js/app.js:118-128 | a name that trims to empty changes nothing; otherwise the trimmed name becomes the current user, is saved with the session time, and module selection is shown |
| QuizApp.Session.HandleLogout | js/app.js:133-138 | a confirmed logout clears the current user and shows login; an unconfirmed one changes nothing |
| QuizApp.Session.StartQuiz | js/app.js:206-229 | sets the module, takes its questions in file order, zeroes index, counters and seconds; shows the first question, or goes straight to results with score 0 for an empty module |
| QuizApp.Session.StartTimer | js/app.js:445-454 | called only while no timer runs (so no interval is left uncleared); elapsed seconds become 0 and the timer is running; nothing else changes |
| QuizApp.Session.Tick | js/app.js:450-453 | one second more while the timer is running, nothing once it is stopped |
| QuizApp.Session.LoadQuestion | js/app.js:252-270 | past the last question, results are shown and the timer stops; otherwise the question at the index is shown with its options enabled |
| QuizApp.Session.ShowResultsScreen | js/app.js:377-380 | the timer stops and the results are shown; nothing else changes |
| QuizApp.Session.HandleAnswer | js/app.js:308-351 | the first answer adds exactly 1 to correct+incorrect (to correct iff the option is the right one), disables the options, records the answer in the store's table, stamps the session time `now` with the name kept, and saves; a click on disabled options changes nothing |
| QuizApp.Session.NextQuestion | js/app.js:356-362 | the index goes up by exactly 1; then the next question is shown, or the results after the last one |
| QuizApp.Session.QuitQuiz | js/app.js:367-372 | a confirmed quit stops the timer and shows the module list with answers kept; an unconfirmed one changes nothing |
| QuizApp.Session.ReturnToModules | js/app.js:108 | from the results back to the module list; nothing else changes |

## Left out

- DOM rendering and styling are not modelled, nor the texts of the analysis messages. This covers `populateModuleList`, `displayQuestion`, `showQuizScreen`, `hideAllScreens` and the element text and class updates. The bands are modelled as datatypes (`Analysis`, `Badge`, `Circle`).
- `updateModuleProgress` (js/app.js:166-200) is modelled only as far as its badge/bar banding (`BadgeFor`) and the two percentages it displays. The bar width is display-only.
- Question files are fetched with `fetch`/`Promise.all` (js/data.js:43-63). They are modelled as a map `fetched` holding the modules whose file was read and parsed. A module whose fetch fails keeps its empty list, and the `alert` it triggers is not modelled.
- Fetches complete concurrently, but the model handles the modules in configuration order. Each step touches only its own module's list and map; the model does not prove the resulting order independence.
- `JSON.stringify`/`JSON.parse` and `localStorage` are modelled as the `Blob` value described above. The text encoding is not modelled.
- `Date` and `toISOString` are not modelled; time stamps are caller-supplied strings. `updateQuestionProgress` reads the clock twice, once for `lastSeen` and once more in `saveUserData`. The model uses one `now` for both.
- `quizStartTime` is set but never read, and is left out.
- The 10-second autosave and the `beforeunload` save (js/data.js:252-255, js/app.js:111) are not modelled; they are event-loop scheduling. Each would be one more `SaveUserData(now)`.
- The one-second interval timer is an explicit `Tick` call. `clearInterval` is modelled by the `timerRunning` flag.
- The 500 ms explanation pulse is not modelled.
- `confirm` is a boolean parameter and `alert` is not modelled.
- `shuffleArray` (js/app.js:479-484) depends on `Math.random` and is never called. Questions stay in file order.
- The in-quiz progress bar width `(index+1)/length*100` (js/app.js:268) is not modelled; it is floating point used only for display.
- js/config.js is not part of this model. The module list is the `Store.modules` constant and the storage key is implicit in the single `storage` slot.
- Floating point is not modelled. `Math.round` is applied to the exact non-negative rational, not to the double the source computes. For a mean of integers (js/data.js:194) the two agree. For a percentage computed as `(part / whole) * 100` they can differ at exact halves, listed below.
- Overall progress over zero modules is `NaN` in the source, modelled as `None`.
- The initial screen is assumed to be login, and the `catch` block of `init` (js/app.js:59-62) is not modelled: nothing the model does throws.
- Disabling the option buttons is modelled by the `answered` flag, which `LoadQuestion` clears.
- QuizApp.Session.HandleAnswer requires the current module to have a progress map. The source throws a `TypeError` otherwise (js/data.js:208). This can happen because `init` tops up the old record before `loadUserData` replaces it (js/app.js:42-46), so a stored record can lack a configured module's map. The crash itself is not modelled.
- QuizData.Store.UpdateQuestionProgress requires `m in user.progress` for the same reason.
- QuizData.Store.ModuleLoaded requires the module's map to exist. `initializeQuestionProgress` would throw without it, and `LoadAllQuestions` creates it first.
- QuizApp.FormatTime: no lemma works out concrete inputs such as 4503 s giving `75:03`. The contract pins the text down instead: it reads back as the seconds, its fields are `s / 60` and `s % 60` (`ClockFields`), the seconds field has two digits, the minutes field has no leading zero beyond two digits, and the minutes are never wrapped.
- Rounding.Percent: rounds the exact value 100·part/whole, while the source rounds the double `(part / whole) * 100`. At an exact half the double can fall just below it: 23 of 40 gives 57 in the source and 58 here (likewise 29 of 200 gives 14 against 15, and 57 of 200 gives 28 against 29). Away from exact halves the two agree.
- QuizData.ModuleProgress: inherits that divergence from `Percent` (js/data.js:179), e.g. a module with 23 of 40 questions mastered.
- QuizApp.ScorePercentage: inherits the same divergence (js/app.js:384), e.g. 23 correct out of 40 answers.
- QuizData.Decode: `js/data.js:110` tests the two fields for truthiness, not for type. The source would also accept `{"username": 1, "progress": 1}`, and it rejects falsy fields (`0`, `false`, `null`, `""`) just as it rejects absent ones. `Blob` carries only absent or well-typed fields, so only the empty user name is modelled among the falsy values.
