# Campus Cheers poll core in Dafny

This project models the poll logic of Campus Cheers, a school app for a
daily positive poll.

- **Poll store.** An in-memory store of users, schools, daily polls and
  responses (`MockDatabase`, lib/database.ts). It has:
  - user creation and lookup by email;
  - today's poll for a school;
  - vote submission and the has-voted check;
  - the results aggregation: counts, total and percentages;
  - the round-robin daily poll generation;
  - the thirty-day retention cleanup.
- **Scheduler.** The minute-by-minute job scheduler and its error-swallowing
  job wrappers (lib/automations.ts).
- **Demo page.** The single-page demo of app/page.tsx:
  - a second small store keyed by `${pollId}-${userId}`;
  - the welcome / poll / recording / results state machine;
  - its 120-second countdown and `formatTime`.
- **Results list.** The ranking in components/ResultsScreen.tsx: an in-place
  sort by percentage, the winner badge, and the 0 defaults and
  "vote"/"votes" label.
- **Login form.** The validation chain in components/WelcomeScreen.tsx.
- **Countdown.** The timer in components/CountdownTimer.tsx: expiry, mm:ss
  fields, clamped progress and the urgency bands.

Modules:

- `Wrappers`: `Option` and `Result`.
- `Decimal`: `toString()` and `padStart(2, '0')` on non-negative integers,
  with their read-back.
- `OrderedMap`: a JavaScript `Map` as an insertion-ordered list of entries.
- `PollTypes`: the records of lib/types.ts.
- `Aggregation`: the tally shared by both stores.
- `Database`, `Automations`, `DemoApp`, `ResultsView`, `Welcome`,
  `Countdown`.

Conventions:

- `uuidv4()` is a counter `nextId` owned by the store. Every stored id is
  below it and the ids of each table increase, so a new id is always fresh.
- The clock is a parameter `now`, in milliseconds.
- A calendar day is `now / 86400000`.
- `record[k]++` on a key that was never set yields `NaN`. This is modelled
  explicitly by `Aggregation.Count`.
- Percentages are exact reals.

Where the intended design of the store and the code disagree, the model
follows the code:

- Creating a user is not idempotent. Two calls with the same email give two
  users with distinct ids (`Database.MockDatabase.CreateUser`).
- A second vote by the same user is stored and counted again
  (`Database.SubmitCountsAgain`).
- A chosen option is not checked against the poll's options. An undeclared
  choice adds a `NaN` entry (`Aggregation.TallyOf`).
- A second `createDailyPolls` on the same day adds duplicate polls
  (`Database.SecondRunDuplicates`).

In the demo store, by contrast, a repeated vote replaces the earlier one
(`DemoApp.ResubmitReplaces`). Its key `${pollId}-${userId}` determines the
user within a poll (`DemoApp.ResponseKeyInjective`) but not across polls
(`DemoApp.ResponseKeyCollides`). The demo only ever uses `poll-1`.

## Model

| member | source | states |
|---|---|---|
| `Decimal.Dec` | app/page.tsx:164 | `n.toString()` is a non-empty digit string without a leading zero |
| `Decimal.ValueOfDec` | app/page.tsx:164 | reading back the numeral gives `n` again |
| `Decimal.PadStart2` | components/CountdownTimer.tsx:42-43 | `padStart(2, '0')` gives length max(2, \|s\|), leaves strings of length ≥ 2 alone, otherwise zeros followed by `s` |
| `Decimal.ValueOfPadStart2` | components/CountdownTimer.tsx:42-43 | padding keeps a digit string and its value |
| `Decimal.TwoDigitField` | app/page.tsx:164 | the padded numeral of `n` has value `n`, at least two digits, and exactly two below 100 |
| `OrderedMap.Get` | app/page.tsx:40-41 | `get(k)` is absent exactly when no entry has key `k`, and otherwise returns a stored value of `k` |
| `OrderedMap.Values` | app/page.tsx:55 | `values()` lists the entries' values in insertion order |
| `OrderedMap.Set` | app/page.tsx:51 | `set(k, v)` appends `(k, v)` when `k` is new, always stores `(k, v)`, and keeps only old entries besides it |
| `OrderedMap.SetKeys` | app/page.tsx:51 | `set(k, v)` adds `k` to the keys, keeps the size when `k` was present and grows it by one otherwise |
| `OrderedMap.SetInPlace` | app/page.tsx:51 | on a key already present, `set` keeps the size and the order and changes only that key's entry, to `(k, v)` |
| `OrderedMap.SetKeepsDistinct` | app/page.tsx:51 | `set` never gives a key a second entry |
| `OrderedMap.GetAfterSet` | app/page.tsx:40-46 | after `set(k, v)`, `get(k)` is `v` and other keys read as before |
| `OrderedMap.SetTwice` | app/page.tsx:51 | a second `set` of the same key leaves the map as if only the second had happened |
| `Aggregation.Tally` | lib/database.ts:161-163 | the record after `counts[c]++` for each choice in order (properties in `Aggregation.TallyOf`) |
| `Aggregation.ResultsFor` | lib/database.ts:153-175 | the results record: the number of choices, the tally from zeroed options, and each option's share (properties in `Aggregation.OptionCounts` and `Aggregation.Percentages`) |
| `Aggregation.ComputeResults` | lib/database.ts:153-175 | the three aggregation loops compute exactly `ResultsFor`: total, tally from zeroed options, per-option shares |
| `Aggregation.ZeroAll` | lib/database.ts:156-159 | the first loop sets every declared option, and only those, to 0 |
| `Aggregation.CountAll` | lib/database.ts:161-163 | the second loop bumps the record once per response, in order |
| `Aggregation.ShareAll` | lib/database.ts:165-168 | from the tallied counts, the third loop gives every declared option its share of the choices, 0 without responses |
| `Aggregation.TallyOf` | lib/database.ts:161-163 | `counts[c]++` adds the number of choices of a numeric key, and turns an unset key that is chosen into `NaN` |
| `Aggregation.OptionCounts` | lib/database.ts:153-163 | total = number of choices; every declared option counts its choices from 0; an undeclared choice adds a `NaN` entry; no other keys |
| `Aggregation.CountsSumToTotal` | lib/database.ts:153-163 | with distinct options and declared choices only, the counts sum to `total_responses` |
| `Aggregation.PercentagesSumTo100` | lib/database.ts:165-168 | with distinct options, declared choices only and at least one response, the percentages sum to 100 |
| `Aggregation.Percentages` | lib/database.ts:165-168 | each option's percentage is `count / total * 100` within [0, 100], and 0 with count 0 when there are no responses |
| `Aggregation.SumOverChoices` | lib/database.ts:161-163 | when every choice is one of the distinct keys, the per-key multiplicities add up to the number of choices |
| `Database.PollById` | lib/database.ts:148 | `dailyPolls.get(id)` is absent iff no poll has the id; otherwise it returns a stored poll with that id |
| `Database.KeepSinceMembers` | lib/database.ts:218-229 | the cleanup keeps a record iff it was stored and is not older than the cut-off |
| `Database.KeepSinceShorter` | lib/database.ts:218-229 | the cleanup never adds records, and removes none exactly when none is old |
| `Database.KeepSinceCompose` | lib/database.ts:213-230 | filtering with an earlier cut-off and then a later one equals filtering with the later one |
| `Database.KeepSinceIdempotent` | lib/database.ts:213-230 | a second cleanup with the same cut-off deletes nothing |
| `Database.ChoicesForCounts` | lib/database.ts:153-154 | the counted choices number the stored responses to the poll, and contain an option iff some such response chose it |
| `Database.SubmitCountsAgain` | lib/database.ts:128-136 | any submission, even a repeated vote, raises the poll's total and the chosen option's count by one |
| `Database.VotedAfterSubmit` | lib/database.ts:138-145 | after a submission the user has voted on a poll iff they had before or the new response is theirs to it |
| `Database.TomorrowIsNextDay` | lib/database.ts:180-181 | `tomorrow` is on the next calendar day |
| `Database.CutoffIsThirtyDaysBack` | lib/database.ts:214-215 | the cut-off is thirty calendar days back at the same time of day |
| `Database.RoundRobinOnePerSchool` | lib/database.ts:199-209 | one poll per school: the k-th poll is the k-th school's, with the question and options of template k mod the number of templates, for the given date, with id `firstId + k`; the ids increase, are new to the stored polls and keep the table keyed; no school twice, every school covered |
| `Database.SecondRunDuplicates` | lib/database.ts:179-210 | two runs at any two times of the same day give the same school two polls with the same question for the next day, both of which count as its poll on that day, the first run's stored first |
| `Database.TemplateOptionsDistinct` | lib/database.ts:44-57 | every template has four distinct options |
| `Database.SeedSchoolTable` | lib/database.ts:17-40 | the three seeded schools in order, with ids 0, 1, 2 issued in turn |
| `Database.MockDatabase.constructor` | lib/database.ts:11-13 | a new store holds the three seeded schools, their three polls for today and no users or responses |
| `Database.MockDatabase.InitializeMockData` | lib/database.ts:15-70 | seeds the three schools with fresh ids, then one poll per school for today, round-robin over the three templates |
| `Database.MockDatabase.AppendRoundRobin` | lib/database.ts:59-69 | appends exactly the round-robin batch with fresh ids and changes no other table |
| `Database.MockDatabase.CreateUser` | lib/database.ts:73-81 | appends one user with a fresh id and the given email and time, with no dedupe by email |
| `Database.MockDatabase.GetUserByEmail` | lib/database.ts:83-90 | returns the first user with the email, or none iff no user has it; changes nothing |
| `Database.MockDatabase.GetSchools` | lib/database.ts:93-95 | returns the stored schools in order |
| `Database.MockDatabase.GetSchoolById` | lib/database.ts:97-99 | returns a school with the id, or none iff there is none |
| `Database.MockDatabase.GetTodaysPoll` | lib/database.ts:102-115 | returns the first poll of the school on today's calendar day, or none iff there is none; changes nothing |
| `Database.MockDatabase.CreatePoll` | lib/database.ts:117-125 | appends the given poll with a fresh id and creation time |
| `Database.MockDatabase.SubmitResponse` | lib/database.ts:128-136 | appends exactly one response with a fresh id, the caller's fields and the time; other records untouched |
| `Database.MockDatabase.HasUserVoted` | lib/database.ts:138-145 | true iff some stored response is by that user to that poll |
| `Database.MockDatabase.GetPollResults` | lib/database.ts:147-176 | "Poll not found" for an unknown id, otherwise the results over the poll's options and all stored responses to it |
| `Database.MockDatabase.CreateDailyPolls` | lib/database.ts:179-210 | appends one poll per school for tomorrow, round-robin over the daily templates, removing nothing, and issues one id per school |
| `Database.MockDatabase.CleanupOldData` | lib/database.ts:213-230 | deletes exactly the responses submitted and the polls scheduled before the cut-off, in order; users and schools untouched |
| `Database.MockDatabase.PurgeResponses` | lib/database.ts:217-222 | deleting while iterating leaves exactly the responses not older than the cut-off |
| `Database.MockDatabase.PurgePolls` | lib/database.ts:224-229 | deleting while iterating leaves exactly the polls not older than the cut-off |
| `Automations.ClockOf` | lib/automations.ts:153-155 | hour, minute and weekday are in range, and hour * 60 + minute is the minute of the day |
| `Automations.DueJobs` | lib/automations.ts:157-180 | the jobs the if-chain starts at a clock reading: each one only in its own trigger minute, the weekly one only on Sunday |
| `Automations.DueExactlyAtTrigger` | lib/automations.ts:157-180 | a job is due exactly in its trigger minute, the weekly one only on Sunday |
| `Automations.AtMostOneJob` | lib/automations.ts:157-180 | the trigger times are distinct: at most one job per tick, none outside the trigger minutes |
| `Automations.DailyJobOncePerDay` | lib/automations.ts:157-175 | a daily job is due at a time iff its minute of the day is the job's (00:05, 12:59, 13:00, 02:00) |
| `Automations.WeeklyJobOnSundays` | lib/automations.ts:177-180 | the weekly analytics are due iff it is Sunday at 03:00 |
| `Automations.RunJob` | lib/automations.ts:4-12 | a wrapper logs its start and success lines, and runs `createDailyPolls` or `cleanupOldData` on the store, or nothing for the log-only jobs |
| `Automations.RunScheduler` | lib/automations.ts:149-181 | a tick runs the due job, if any, and touches only its tables: poll creation appends tomorrow's batch and advances the id counter, leaving responses alone; cleanup purges polls and responses; the log-only jobs and a tick with no job due leave polls, responses and the counter unchanged; users and schools never change |
| `DemoApp.MockOptionsDistinct` | app/page.tsx:29-34 | the four options of `mockPoll` are distinct |
| `DemoApp.ResponseKey` | app/page.tsx:51 | the key is the poll id, a '-', then the user id |
| `DemoApp.ResponseKeyInjective` | app/page.tsx:51 | within one poll, equal keys mean equal user ids |
| `DemoApp.ResponseKeyCollides` | app/page.tsx:51 | two different (poll, user) pairs can share a key |
| `DemoApp.DemoChoicesHas` | app/page.tsx:55 | a stored response to the poll has its option among the counted choices |
| `DemoApp.OneResponsePerVoter` | app/page.tsx:49-52 | a store keyed by voter holds at most one response per poll and user |
| `DemoApp.ResubmitReplaces` | app/page.tsx:49-52 | voting twice for the same poll and user leaves the store as voting once with the last option |
| `DemoApp.DemoStore.constructor` | app/page.tsx:39-41 | the demo store starts empty |
| `DemoApp.DemoStore.CreateUser` | app/page.tsx:43-47 | stores a user with id `user-<ms>` and the email, replacing a user with that id |
| `DemoApp.DemoStore.SubmitResponse` | app/page.tsx:49-52 | stores the response under its poll-and-user key, replacing an earlier one, and it is among the values |
| `DemoApp.DemoStore.GetPollResults` | app/page.tsx:54-78 | the results of the matching responses over `mockPoll`'s options |
| `DemoApp.FormatTime` | app/page.tsx:161-165 | whole minutes, a colon, the remaining seconds padded to two digits (properties in `DemoApp.FormatTimeRoundTrip`) |
| `DemoApp.FormatTimeRoundTrip` | app/page.tsx:161-165 | minutes before the colon, two digits of seconds below 60 after it, and minutes * 60 + seconds gives back the input |
| `DemoApp.ProgressPercentage` | app/page.tsx:167 | the elapsed share of the 120-second window, in percent (properties in `DemoApp.ProgressBounds`) |
| `DemoApp.ProgressBounds` | app/page.tsx:167 | the progress is 0 at 120, 100 at 0, and grows as the counter falls |
| `DemoApp.Home.constructor` | app/page.tsx:84-90 | the page starts on the welcome screen with no user, no selection, an inactive poll and 120 s |
| `DemoApp.Home.SetEmail` | app/page.tsx:194 | the input changes only the email |
| `DemoApp.Home.HandleLogin` | app/page.tsx:119-127 | with a non-empty email it creates and keeps a user and moves to the poll, otherwise nothing changes |
| `DemoApp.Home.HandleVote` | app/page.tsx:129-132 | records the option and moves to recording |
| `DemoApp.Home.HandleRecordingComplete` | app/page.tsx:134-147 | a no-op without a user or a selection; otherwise it submits first, then shows results that include the vote |
| `DemoApp.Home.HandleRecordingCancel` | app/page.tsx:149-152 | clears the selection and returns to the poll |
| `DemoApp.Home.HandlePollExpire` | app/page.tsx:154-159 | deactivates the poll and shows the current results |
| `DemoApp.Home.ShowResults` | app/page.tsx:156-158 | reads the store's current results for `poll-1` and shows them, changing nothing else |
| `DemoApp.Home.Tick` | app/page.tsx:102-117 | only on an active poll: above 1 it decrements; otherwise it sets 0, deactivates and shows results |
| `DemoApp.Home.StartPollDemo` | app/page.tsx:316-320 | activates the poll with a fresh 120 s |
| `DemoApp.Home.PageRows` | app/page.tsx:398-401 | the page's results rows, in declaration order of `mockPoll.options` (as written) |
| `DemoApp.Home.RankedPageRows` | app/page.tsx:398-401 | with the options ranked first, the badge goes to an option of greatest percentage, and some row wins iff some percentage is positive |
| `DemoApp.PageWinnerNotHighest` | app/page.tsx:398-401 | votes B, B, A put the page's badge on A at a third while B has two thirds |
| `ResultsView.PctOrZero` | components/ResultsScreen.tsx:45 | a missing percentage reads as 0, a present one as itself |
| `ResultsView.CountOrZero` | components/ResultsScreen.tsx:46 | a missing or `NaN` count reads as 0, a number as itself |
| `ResultsView.VoteLabel` | components/ResultsScreen.tsx:97 | the count, then " vote", then "s" unless the count is 1 (properties in `ResultsView.VoteLabelPlural`) |
| `ResultsView.VoteLabelPlural` | components/ResultsScreen.tsx:97 | the label starts with the count and ends in "vote" iff the count is 1, in "votes" otherwise |
| `ResultsView.Rows` | components/ResultsScreen.tsx:44-47 | one row per option |
| `ResultsView.AtMostOneWinner` | components/ResultsScreen.tsx:47 | only row 0 can win, exactly when its percentage is positive; no winner when all are 0 |
| `ResultsView.SortByPercentage` | components/ResultsScreen.tsx:7-9 | the in-place sort leaves a permutation of the options, non-increasing by percentage (missing as 0) |
| `ResultsView.InsertLeft` | components/ResultsScreen.tsx:7-9 | one insertion pass extends the ranked prefix by one and permutes the array |
| `ResultsView.Swap` | components/ResultsScreen.tsx:7-9 | exchanges two elements, keeping the multiset |
| `ResultsView.SwapKeepsRanked` | components/ResultsScreen.tsx:7-9 | moving a larger percentage left keeps the pass's ranking state |
| `ResultsView.RankedAroundDone` | components/ResultsScreen.tsx:7-9 | a pass that stops is ranked |
| `ResultsView.FirstIsMaximal` | components/ResultsScreen.tsx:7-9 | in a ranked list the first option has the greatest percentage |
| `ResultsView.RankedWinnerIsMaximal` | components/ResultsScreen.tsx:44-47 | over ranked options the winner has the greatest percentage, and a winner exists iff some percentage is positive |
| `ResultsView.RankedRows` | components/ResultsScreen.tsx:7-47 | reorders the caller's options array in place into a ranked permutation and renders its rows |
| `Welcome.Utf16Length` | components/WelcomeScreen.tsx:35 | JavaScript's `length`: at least the number of characters and at most twice it, equal to it when every character is in the Basic Multilingual Plane |
| `Welcome.Validate` | components/WelcomeScreen.tsx:24-44 | succeeds iff the identifier is non-empty, has '@' for email and ≥ 10 UTF-16 units for phone; the school email is the email, or the phone + "@school.com", and always contains '@' |
| `Welcome.ValidationMessages` | components/WelcomeScreen.tsx:27-37 | which check rejects, with its message; a phone number of 10 or more UTF-16 units of any kind passes, and so does one of 10 or more characters |
| `Welcome.AstralDigitsPass` | components/WelcomeScreen.tsx:35-37 | five digits beyond U+FFFF pass the phone check as ten UTF-16 units, while five ASCII digits fail it |
| `Welcome.WelcomeForm.constructor` | components/WelcomeScreen.tsx:12-16 | the form starts empty in email mode, not submitting, without error |
| `Welcome.CaughtMessage` | components/WelcomeScreen.tsx:50-51 | the error shown for a thrown value: an `Error`'s message, otherwise "An error occurred" |
| `Welcome.WelcomeForm.HandleSubmit` | components/WelcomeScreen.tsx:19-55 | `onLogin` is called once iff validation succeeds, with a `user_<ms>` user; the error is then cleared, or set to what `onLogin` threw; otherwise the validation message is set; never left submitting |
| `Countdown.CountdownTimer.constructor` | components/CountdownTimer.tsx:8-9 | the timer starts at 0, not expired |
| `Countdown.CountdownTimer.CalculateTimeLeft` | components/CountdownTimer.tsx:12-25 | no time left: 0, expired, `onExpire` called once more; otherwise the difference; expiry is never undone |
| `Countdown.FormatTime` | components/CountdownTimer.tsx:36-45 | whole minutes and remaining seconds of the milliseconds, each padded to two digits (properties in `Countdown.FormatTimeFields`) |
| `Countdown.FormatTimeFields` | components/CountdownTimer.tsx:36-45 | minutes and seconds are digit strings of at least two characters, seconds exactly two and below 60, and they give back the whole seconds |
| `Countdown.Progress` | components/CountdownTimer.tsx:48 | within [0, 100], `t / 120000 * 100` inside the window, 0 below and 100 above |
| `Countdown.ShowsWarning` | components/CountdownTimer.tsx:89 | the warning shows for 0 < time left ≤ 30000 ms |
| `Countdown.ShowsHurry` | components/CountdownTimer.tsx:100 | the hurry indicator shows for 30000 < time left ≤ 60000 ms |
| `Countdown.BandsPartition` | components/CountdownTimer.tsx:89-100 | the warning and hurry bands are disjoint, absent at 0 and above a minute, and cover everything in between |
| `Countdown.Render` | components/CountdownTimer.tsx:50-108 | "Time's Up!" iff expired; otherwise never both bands, progress within [0, 100] |

## Left out

- Time zones. `setHours`, `getHours`, `getMinutes` and `getDay` are taken in
  UTC, from a millisecond timestamp.
- `setDate(getDate() ± n)` is taken as exactly n × 86400000 ms, so daylight
  saving is left out.
- The formats of `uuidv4()` and `Date.now()`. Ids are counter values and
  times are integers.
- Floating point. Percentages and progress are exact reals, and the
  `toFixed(1)` display rounding is not modelled.
- React scheduling: `useEffect`, `setInterval`, `clearInterval`, `setTimeout`
  and async/await. Each tick, handler or job is one sequential method call.
  The 60-second scheduler interval is not modelled.
- The localStorage session restore and save in app/page.tsx. This is
  persistence, outside the model.
- Camera recording, push notifications and the service worker. Of
  `sendPrePollNotifications` only its log lines are kept.
- The `NotificationManager` class is not part of this model (browser
  notification APIs).
- The one-second simulated delay in `handleSubmit`.
- Rendering beyond the values shown: JSX, styles and animation.
- Automations.RunJob: does not model the catch branch that logs an error,
  because no store step of this model can fail. Nothing is ever rethrown.
- DemoApp.DemoStore.CreateUser: takes the clock as a natural number.
  Timestamps before 1970 are not modelled.
- Welcome.WelcomeForm.HandleSubmit: takes the clock as a natural number, so
  timestamps before 1970 are not modelled. The caller's `onLogin` is
  represented only by what it throws, if anything.
- Decimal.PadStart2: measures lengths in characters rather than UTF-16 units. It is only applied to
  decimal numerals, whose characters are ASCII, so the two agree.
- Countdown.FormatTime: takes a non-negative time, as the component only
  passes `timeLeft`, which is never negative.
- ResultsView.SortByPercentage: stability of `Array.prototype.sort` is not
  proved. The sort only moves an option past strictly smaller percentages.

## Findings

| source | as written | input that shows it | evidently intended | confidence | as-written member | corrected member |
|---|---|---|---|---|---|---|
| app/page.tsx:398-401 | the winner badge goes to index 0 of `mockPoll.options` in declaration order, which is never sorted | votes "The silent giggler", "The silent giggler", "The one who snorts when they laugh": the badge goes to the first option at 33.3% while the second has 66.7% | as in components/ResultsScreen.tsx, rank the options by percentage before flagging index 0 | not executed | `DemoApp.PageWinnerNotHighest` | `DemoApp.Home.RankedPageRows` |
