# Dear Diary — a verified model of its core

Dear Diary is a journaling web application. A browser client (`DearDiaryApp`)
lets a signed-in user write dated entries, pick or detect a mood, search the
entries and see simple analytics (mood distribution, top mood, day streak).
An Express server stores the entries in a `diary_entries` table, asks an
emotion-analysis service for the mood of each new or edited text, colours the
mood, and turns thrown errors into JSON responses through one error handler.

This project models that core in Dafny:

- `wrappers.dfy` — `Option`, the stand-in for JavaScript's `undefined`/`null`.
- `text.dfy` — the string operations the code relies on: `trim` (the
  ECMAScript white-space and line-terminator set), ASCII `toLowerCase`,
  `includes`, and JavaScript truthiness of an optional string.
- `seqs.dfy` — `Array.prototype.filter` on sequences, with its order and
  multiplicity properties.
- `error_handler.dfy` — the error-handling middleware as a pure function from
  an error and `NODE_ENV` to a response (status, `success`, `message`, `stack`).
- `diary_controller.dfy` — the `diary_entries` table as a class
  `EntryTable` whose methods are the controller's create, update, delete, list
  and get-one operations, plus `getMoodColor`.
- `client_model.dfy` — the client's pure helpers: `truncateText`,
  `validateEntry`, `getMoodEmoji`, the emotion-to-mood map of
  `detectAndSetEmotion`, and the `handleSearch` filter.
- `analytics.dfy` — the specification functions of the analytics: the mood
  histogram in first-seen order, the top mood with its tie-break, and the day
  streak, with an independent description of what a streak is.
- `diary_app.dfy` — the client object `DearDiaryApp` with its fields
  `entries`, `currentMood` and `currentMoodName`; the loops of
  `getMoodDistribution`, `calculateStreak` and the mood-option scan of
  `detectAndSetEmotion` are methods proved against the functions above.

Modelling conventions:

- Dates are whole day numbers. "Today" (`new Date()` at midnight) and the
  server's timestamp are parameters.
- The result of the emotion-analysis service is an input. The server sees
  either a failed call or an answered `data.mood`; the client sees an optional
  `prediction`.
- Strings are sequences of code points. `toLowerCase` maps only `A`–`Z`.
- An empty string is falsy, as in JavaScript. A missing optional field and an
  empty one therefore take the same default (`entry.mood || 'neutral'`,
  `result.data || []`, `err.statusCode || 500`, where a status of 0 is falsy
  as well).
- Object-literal lookups (`moodColors[...]`, `moodEmojis[...]`, the emotion map)
  are Dafny maps over the literal's own keys.
- The rows of the table are kept in insertion order. `ORDER BY entry_date DESC`
  is specified as "descending by date and a permutation of the matching rows";
  among equal dates the model picks one order, because SQL leaves it open.

## Model

Some specification functions carry no contract of their own and are described
by the members that use them: `Analytics.StreakOf` (public/js/app.js:566-593,
through `RunFrom` and the streak lemmas), `Analytics.Distribution`
(public/js/app.js:531-538) and `Analytics.Occurrences` (the independent count it
is compared with, in `DistributionCounts`), `Analytics.TopMoodOf`
(public/js/app.js:540-551, in the top-mood lemmas), `ClientModel.SearchTerm`
(public/js/app.js:349) and `ClientModel.MatchesTerm` (public/js/app.js:356-361,
both in `Search`), and `DiaryController.MergedRow` (controllers/diartcontroller.js:109-137,
in `EntryTable.UpdateEntry`).

| member | source | states |
|---|---|---|
| `Text.Trim` | public/js/app.js:349 | the result is the input with leading and trailing white space removed: a slice of the input that starts after the leading white space, is followed only by white space, has no white space at its ends, and is empty exactly when the input is all white space |
| `Text.LowerIdempotent` | public/js/app.js:349 | lower-casing twice is the same as lower-casing once |
| `Seqs.Filter` | public/js/app.js:356-361 | an element is kept exactly when it was in the input and satisfies the predicate; the result is no longer than the input |
| `Seqs.FilterMultiset` | public/js/app.js:356-361 | each kept element appears as many times as in the input; rejected ones do not appear |
| `Seqs.FilterIsSubsequence` | public/js/app.js:356-361 | the filter keeps the input's order |
| `Seqs.FilterAppend` | controllers/diartcontroller.js:11-14 | filtering a concatenation is concatenating the filtered parts |
| `Seqs.FilterAll` | controllers/diartcontroller.js:49-52 | a filter that accepts everything returns its input |
| `Seqs.FilterFilter` | controllers/diartcontroller.js:49-52 | filtering by a stronger predicate after a weaker one is filtering by the stronger one alone |
| `ErrorHandler.StatusOrDefault` | utils/errorHandler.js:36 | the status is the error's own `statusCode` when that is set and non-zero, else 500; it is never 0 |
| `ErrorHandler.MessageOrDefault` | utils/errorHandler.js:38 | the message is the error's own when non-empty, else "Server Error" |
| `ErrorHandler.HandleError` | utils/errorHandler.js:2-41 | every response has `success` false; code 23505 or 23503 gives 400; otherwise a `JsonWebTokenError` or `TokenExpiredError` gives 401; otherwise status and message fall back and the error's own stack is sent exactly in development; no other branch sends a stack |
| `ErrorHandler.DuplicateKeyResponse` | utils/errorHandler.js:6-11 | a unique violation gives 400 "Duplicate entry - resource already exists" and no stack |
| `ErrorHandler.ForeignKeyResponse` | utils/errorHandler.js:13-18 | a foreign-key violation gives 400 "Foreign key constraint violation" and no stack |
| `ErrorHandler.TokenErrorResponses` | utils/errorHandler.js:21-33 | without a database code, the two token errors give 401 "Invalid token" and 401 "Token expired" |
| `ErrorHandler.DatabaseCodeDecides` | utils/errorHandler.js:6-18 | with a database code the response depends only on the code, not on the name, message, status, stack or environment |
| `ErrorHandler.DuplicateBeatsExpiredToken` | utils/errorHandler.js:6-33 | the database check comes first: an expired-token error carrying code 23505 gets 400, not 401 |
| `ErrorHandler.FallbackResponse` | utils/errorHandler.js:36-40 | any other error gets its own status or 500, its own message or "Server Error", and, exactly when `NODE_ENV` is "development", the error's own `stack` |
| `ErrorHandler.UnauthorizedOnlyFromTokenOrOwnStatus` | utils/errorHandler.js:21-38 | the status is 401 exactly when the error has no database code and is a token error or carries status 401 itself |
| `DiaryController.MoodColor` | controllers/diartcontroller.js:181-193 | the colour is always one of the seven palette colours; it is the palette entry of the lower-cased mood when there is one, and grey otherwise |
| `DiaryController.MoodColorCaseInsensitive` | controllers/diartcontroller.js:192 | the colour does not depend on the mood's letter case |
| `DiaryController.NeutralIsGrey` | controllers/diartcontroller.js:67-68 | the default mood "neutral" has the default colour grey, so the two defaults agree |
| `DiaryController.MoodColorGreyIff` | controllers/diartcontroller.js:181-193 | the colour is grey exactly when the lower-cased mood is "neutral" or not in the palette |
| `DiaryController.UpdateStatus` | controllers/diartcontroller.js:140-151 | no updated row answers 404 and an updated row answers 200; `EntryTable.UpdateEntry` promises 404 exactly when no row has that id and user |
| `DiaryController.Coalesce` | controllers/diartcontroller.js:130-133 | `COALESCE`: the supplied value when there is one, else the stored one |
| `DiaryController.Patch` | controllers/diartcontroller.js:128-137 | the patched row keeps its id, owner, entry date and creation time, takes `updated_at` from the clock, and coalesces title, content, mood and colour |
| `DiaryController.UpdateRows` | controllers/diartcontroller.js:128-137 | the `UPDATE`: the same number of rows; rows matching id and user are patched, all others are unchanged |
| `DiaryController.DeleteRows` | controllers/diartcontroller.js:49-52 | the `DELETE`: a row survives exactly when it does not match both id and user |
| `DiaryController.Owned` | controllers/diartcontroller.js:11-14 | the `WHERE user_id` filter: exactly the user's rows |
| `DiaryController.Matching` | controllers/diartcontroller.js:30-33 | exactly the rows with that user and id; at most one when ids are distinct |
| `DiaryController.InsertByDate` | controllers/diartcontroller.js:12 | inserting into a date-descending list keeps it descending and adds one row |
| `DiaryController.InsertByDateMultiset` | controllers/diartcontroller.js:12 | the insertion adds exactly the new row and loses none |
| `DiaryController.SortByDate` | controllers/diartcontroller.js:12 | `ORDER BY entry_date DESC`: descending by date and a permutation of its input |
| `DiaryController.FindTarget` | controllers/diartcontroller.js:135 | finds the index of a row matching id and user, and finds none exactly when no row matches |
| `DiaryController.EntryTable.constructor` | controllers/diartcontroller.js:86-88 | an empty table whose first id is 1 |
| `DiaryController.EntryTable.CreateEntry` | controllers/diartcontroller.js:62-100 | appends exactly one row with a fresh id, the given fields and `created_at = updated_at = now`; mood is "neutral" and colour grey when the service fails or answers no mood, else the answer and its colour; ids stay distinct |
| `DiaryController.EntryTable.UpdateEntry` | controllers/diartcontroller.js:103-155 | answers not-found exactly when no row has that id and user, and then changes nothing; otherwise returns the patched row; only matching rows change, and the mood is recomputed only when new content is given and the service answers |
| `DiaryController.EntryTable.DeleteEntry` | controllers/diartcontroller.js:44-60 | the table afterwards is the `DELETE` of the table before; ids stay distinct |
| `DiaryController.EntryTable.GetAllEntries` | controllers/diartcontroller.js:7-23 | returns exactly the user's rows, each as often as stored, newest date first, with `count` their number |
| `DiaryController.EntryTable.GetEntry` | controllers/diartcontroller.js:25-42 | returns the user's row with that id, if any, and never more than one |
| `DiaryController.FilterKeepsDistinctIds` | controllers/diartcontroller.js:49-52 | filtering a table keeps its ids distinct |
| `DiaryController.DeleteKeepsIdsDistinct` | controllers/diartcontroller.js:49-52 | deletion keeps ids distinct |
| `DiaryController.CreateListing` | controllers/diartcontroller.js:86-90 | after a create, the owner's listing gains exactly the new row and every other user's listing is unchanged |
| `DiaryController.DeleteLeavesOtherUsers` | controllers/diartcontroller.js:49-52 | a delete never touches another user's rows |
| `DiaryController.DeleteIsIdempotent` | controllers/diartcontroller.js:49-52 | deleting the same entry twice is the same as deleting it once |
| `DiaryController.UpdateLeavesOtherUsers` | controllers/diartcontroller.js:135 | an update never touches another user's rows |
| `DiaryController.UpdateWithoutTarget` | controllers/diartcontroller.js:135-145 | with no matching row the `UPDATE` changes nothing |
| `ClientModel.TruncateText` | public/js/app.js:615-618 | text of at most `maxLength` code points is returned unchanged; longer text becomes its first `maxLength` code points, trimmed, followed by "..." |
| `ClientModel.TruncateKeepsCleanCut` | public/js/app.js:617 | when the cut neither starts nor ends in white space, the preview is the whole cut plus "...", `maxLength + 3` code points |
| `ClientModel.ValidateEntry` | public/js/app.js:311-331 | accepted exactly when a date is given and the content has at least 10 code points; otherwise the first failing check (date, then content, then length) is reported |
| `ClientModel.MoodEmoji` | public/js/app.js:404-415 | the emoji is the table's entry for the lower-cased mood when that is a key; a missing mood or one whose lower-cased form is not a key gives 😊 |
| `ClientModel.MoodEmojiCaseInsensitive` | public/js/app.js:414 | the emoji does not depend on the mood's letter case |
| `ClientModel.EmotionMood` | public/js/app.js:147-163 | a known prediction, in any letter case, gives its entry of the map; an unknown one gives Happy 😊; the name is always one of the five the map uses |
| `ClientModel.FearSelectsSad` | public/js/app.js:157 | the prediction "fear" selects the Sad mood |
| `ClientModel.Search` | public/js/app.js:348-364 | a blank term shows every entry; otherwise an entry is shown exactly when its content, title, mood or formatted date contains the term after lower-casing |
| `ClientModel.SearchKeepsOrderAndMatches` | public/js/app.js:356-361 | the shown entries keep the list order, and each matching entry is shown as often as it appears |
| `ClientModel.MissingFieldsNeverMatch` | public/js/app.js:358-359 | an entry with no title and no mood is matched only through its content or its date |
| `Analytics.InsertDay` | public/js/app.js:569-571 | inserting a day into a strictly descending list of days keeps it strictly descending and adds exactly that day |
| `Analytics.DistinctDays` | public/js/app.js:569-571 | the de-duplicated days, newest first: strictly descending with the same set of days |
| `Analytics.RunFrom` | public/js/app.js:577-590 | the loop's count: the first `k` days are `today`, `today - 1`, …, and the next day, if any, breaks the run |
| `Analytics.StreakMeetsDescription` | public/js/app.js:566-593 | the computed streak meets the description of a streak |
| `Analytics.StreakDescriptionUnique` | public/js/app.js:566-593 | at most one number meets the description |
| `Analytics.StreakCharacterization` | public/js/app.js:566-593 | a number meets the description exactly when it is the computed streak: 0 when some entry is dated after today, else the number of consecutive days with an entry ending today |
| `Analytics.StreakOfNothing` | public/js/app.js:567 | no entries give a streak of 0 |
| `Analytics.StreakBrokenByFutureOrMissingToday` | public/js/app.js:577-589 | no entry today, or an entry in the future, gives a streak of 0 |
| `Analytics.SameDayCountsOnce` | public/js/app.js:569-571 | a second entry on a day already present does not change the streak |
| `Analytics.StreakAtMostDistinctDays` | public/js/app.js:569-590 | the streak never exceeds the number of distinct entry days |
| `Analytics.DistinctCount` | public/js/app.js:569-571 | the de-duplicated list has as many days as the set of days |
| `Analytics.MoodKey` | public/js/app.js:534 | a missing or empty mood counts as "neutral"; any other mood counts as itself |
| `Analytics.Tally` | public/js/app.js:535 | counting one more entry keeps the existing keys in place and adds at most one key, a new one, last, with count 1 |
| `Analytics.TallyCounts` | public/js/app.js:535 | counting a mood adds one to that mood's count and leaves every other count alone |
| `Analytics.TallyTotal` | public/js/app.js:535 | counting a mood adds one to the total |
| `Analytics.TallyShape` | public/js/app.js:535 | keys stay distinct and counts positive |
| `Analytics.DistributionCounts` | public/js/app.js:531-538 | each mood's count is the number of entries with that mood, "neutral" for missing ones |
| `Analytics.DistributionTotal` | public/js/app.js:531-538 | the counts add up to the number of entries |
| `Analytics.DistributionShape` | public/js/app.js:542 | keys are distinct, counts positive, and the histogram is empty exactly when there are no entries |
| `Analytics.BestIndex` | public/js/app.js:546-548 | the `reduce` picks a key of largest count and, among ties, the last one in first-seen order |
| `Analytics.TopMoodOfEntries` | public/js/app.js:540-551 | no entries give 😊 with count 0; otherwise the count is positive and no mood is shared by more entries |
| `Analytics.TopMoodEmojiOfEntries` | public/js/app.js:546-550 | with entries, the emoji is that of a mood reaching the top count, the last such mood in first-seen order |
| `Analytics.CountOfBound` | public/js/app.js:546-548 | no count exceeds the largest one |
| `Analytics.CountOfMissing` | public/js/app.js:535 | a key that is not in the histogram has count 0 |
| `Analytics.CountOfDistinct` | public/js/app.js:535 | with distinct keys, a key's count is the count stored at its position |
| `DiaryApp.DearDiaryApp.constructor` | public/js/app.js:3-6 | no entries, and the current mood is 😊 "Happy" |
| `DiaryApp.DearDiaryApp.LoadEntries` | public/js/app.js:75-100 | a successful load replaces the entries with the response's `data` or `[]`; a 401 or a failure keeps them; the mood is unchanged |
| `DiaryApp.DearDiaryApp.HandleMoodSelection` | public/js/app.js:202-219 | the current mood and name become the chosen option's; the entries are unchanged |
| `DiaryApp.DearDiaryApp.DetectAndSetEmotion` | public/js/app.js:124-199 | blank text, text shorter than 10 and a missing prediction are reported in that order; on a prediction, the current mood becomes the last option named like the mapped mood, and stays as it was when no option has that name |
| `DiaryApp.DearDiaryApp.SaveEntryRequest` | public/js/app.js:231-262 | a request is built exactly when validation passes; it carries the trimmed content, the title or "My Entry", and the current mood lower-cased |
| `DiaryApp.DearDiaryApp.HandleSearch` | public/js/app.js:348-364 | the shown entries are the search of the current entries, in their order |
| `DiaryApp.DearDiaryApp.GetMoodDistribution` | public/js/app.js:531-538 | the loop computes the histogram of the current entries |
| `DiaryApp.DearDiaryApp.GetTopMood` | public/js/app.js:540-551 | the result is the top mood of that histogram; no entries give 😊 with count 0 |
| `DiaryApp.DearDiaryApp.CalculateStreak` | public/js/app.js:566-593 | the loop computes the streak of the current entries, and the result meets the description of a streak |

## Left out

- Transport: HTTP requests and responses, `fetch` and `axios`, the database
  connection and its errors, the toasts, the DOM, focus, loading states,
  modals, keyboard shortcuts and chart rendering. These are I/O. The model keeps
  only the values that flow through them.
- `res.send(200).json(...)` in the list, get-one and delete handlers
  (controllers/diartcontroller.js:15, 34, 53): in Express, `send` already ends
  the response, so the following `json` fails. The model states the values that
  the handlers compute and the status they intend (200), not what this framework
  misuse puts on the wire.
- `getCalendarEntries` (controllers/diartcontroller.js:157-179): it queries an
  undefined `pool`, so every call fails before it reaches the table and goes to
  the error handler. The month filter is not modelled.
- The controller's `detectEmotion` operation is not exported by
  controllers/diartcontroller.js and has no model. The client's `detectEmotion`
  call is modelled through its result, the optional `prediction`.
- The emotion-analysis service under python/ is outside this model. Its
  answer is an input. The controller reads `data.mood` while the service's
  own response names its field `prediction`. The model follows the controller
  and takes `data.mood` as given.
- The `mood` and `mood_name` the client sends on save are ignored by
  `createEntry`, which uses only the service's answer. The model does the same.
- The server's clock `getCurrentTimestamp` (utils/timeStampHelper.js is not
  part of this model) and the browser's `new Date()` are parameters.
- Request validation by express-validator, authentication and the token check,
  and the redirect in the client's constructor (public/js/app.js:7-20) are not
  modelled. The `userId` is an input.
- Date parsing, time zones, `formatDate` (taken as a parameter of the search),
  `calculateWeeklyAverage` and the chart's percentages are left out. They depend
  on the host's locale and clock and on floating point.
- The probability summary in the detection toast (public/js/app.js:177-188) is
  floating-point formatting and is not modelled. Neither is the `foundMood` flag,
  which is written but never read.
- The client assumes every entry it receives has content: `ClientEntry.content`
  is a plain string. The server's `content` column may be NULL (nothing enforces
  the route's `notEmpty` rule), and for such a row `handleSearch` and
  `truncateText` (public/js/app.js:357, 394, 616) throw a TypeError in the
  browser; that throw is not modelled.
- Exception paths inside client methods (the `catch` blocks that only log and
  toast) are not modelled. A failed load is one outcome of `LoadEntries`.
- Unicode case mapping beyond `A`–`Z` is not modelled, and neither are UTF-16
  code units: lengths are counted in code points.
- Prototype keys of object literals, such as `constructor`, are not looked up
  by the model's maps. JavaScript's ordering of integer-like keys in the mood
  histogram is not modelled: keys stay in first-seen order.
- `Express`'s rejection of an invalid status code in the error handler's
  fallback (for example a non-numeric `statusCode`) is not modelled;
  `statusCode` is an optional integer.
- `DiaryController.EntryTable.GetAllEntries`: among entries with the same
  `entry_date` the order is whatever the insertion sort gives. The contract
  promises only what `ORDER BY entry_date DESC` promises.
