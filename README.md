# habit-snake-bot, modelled in Dafny

habit-snake-bot is a Telegram bot for a small group that keeps daily habits together.
Each member sets two to four core habits for a month (`/sethabits`). The member then checks in for
yesterday or today, one habit at a time (`/checkin`). They can declare Do Not Disturb (DND)
periods during which a habit is not asked for (`/dnd`). A scheduler reminds members who have not checked in for
yesterday, up to three times a day. It later marks every remaining habit as missed (`❌`),
or as DND (`⛔`), and once a day it posts a streak summary to the channel. All handlers read
an in-memory cache of the database tables (`DbCache`). Small helpers validate and format the
values that pass between users, the cache and the sheets.

The model has one module per source file of the core, plus small shared modules:

| module | file | models |
|---|---|---|
| `CachedDb` | `cached_db.dfy` | the table cache `DbCache` (a class over `seq` fields) and its queries, including the rest-day rule and DND lookup |
| `Scheduler` | `scheduler.dfy` | `parse_hhmm`, the message formatters, and one scheduler tick, `check_and_prompt` (class `ReminderState` holds the module's global dictionaries) |
| `Checkin` | `checkin.dfy` | the `/checkin` conversation (class `Conversation`), its sessions, masking and committed rows |
| `Dnd` | `dnd.dfy` | the `/dnd` conversation (class `DndEditor`) with its queue of pending database operations |
| `SetHabits` | `sethabits.dfy` | the `/sethabits` conversation of the current bot (class `Conversation`) |
| `LegacySetHabits`, `Sheets` | `legacy_sethabits.dfy`, `sheets.dfy` | the first `/sethabits` conversation and the Google-Sheets row it appends |
| `Validation` | `validation.dfy` | the validators of `bot/utils/validation.py` |
| `Helpers` | `helpers.dfy` | the helpers of `bot/utils/helpers.py` |
| `Dates`, `Text`, `Collections`, `Sorting`, `Wrappers` | | Python's `date`, `strptime`/`strftime`, `str.strip`/`split`/`join`, `int()`/`str()`, `filter`, stable `sort` |

Handlers are methods. The conversation step a handler returns is a `Step` value, and an
exception the handler does not catch is the step `Crash`. Database writes are appended to
outbox fields (`dbWrites`, `dbCalls`), so their order and contents can be stated. Telegram
replies are left out, except for the texts the bot announces, which are modelled as functions.
Clocks, time zones and configuration values are parameters.

## Model

| member | source | states |
|---|---|---|
| CachedDb.InDndOnlyOwnRows | bot/utils/cached_db.py:259-268 | a DND row of another user or another habit never changes whether a date is in DND |
| CachedDb.PriorCheckins | bot/utils/cached_db.py:282 | a row is kept iff it belongs to the user and habit and its date text sorts before the checked date |
| CachedDb.LastSix | bot/utils/cached_db.py:283-284 | at most six rows, exactly six iff there are at least six prior check-ins, all of them prior check-ins, newest date first |
| CachedDb.LastSixKeepsNewest | bot/utils/cached_db.py:283-284 | the kept rows are a sub-multiset of the prior check-ins, and no prior check-in left out has a later date than one kept |
| CachedDb.RestDayIffNewestDone | bot/utils/cached_db.py:280-285 | independently of the sort, where same-date check-ins agree in status: the rest day is offered iff there are at least six prior check-ins and every one with fewer than six newer check-ins is done |
| CachedDb.NewestRule | bot/utils/cached_db.py:283-285 | for six rows kept out of the newest: all done iff every check-in with fewer than six newer ones is done |
| CachedDb.KeptHasFewNewer | bot/utils/cached_db.py:283-284 | a kept row has fewer newer check-ins than there are kept rows |
| CachedDb.DroppedHasManyNewer | bot/utils/cached_db.py:283-284 | a row left out, differing in status from every kept row, has at least as many newer check-ins as there are kept rows |
| CachedDb.RestDayExactlySix | bot/utils/cached_db.py:280-285 | with exactly six prior check-ins, the rest day is offered iff all six are done |
| CachedDb.RestDayIgnoresUnrelated | bot/utils/cached_db.py:280-285 | check-ins of other users, other habits, or on or after the date do not change eligibility |
| CachedDb.LatestCreatedAt | bot/utils/cached_db.py:288-293 | the result is the `created_at` of one of the habits and no habit's is later |
| CachedDb.DbCache.constructor | bot/utils/cached_db.py:33-85 | the cache holds exactly the loaded tables |
| CachedDb.DbCache.AddUser | bot/utils/cached_db.py:87-100 | one profile appended with the given fields, status and start date; other tables unchanged |
| CachedDb.DbCache.UpdateUser | bot/utils/cached_db.py:110-120 | only the first user with the id is rewritten; found iff such a user exists |
| CachedDb.DbCache.GetUserById | bot/utils/cached_db.py:122-126 | the first user with the id, `None` iff there is none |
| CachedDb.DbCache.AddHabitToCache | bot/utils/cached_db.py:132-145 | one habit appended with id one past the count; nothing else changes |
| CachedDb.DbCache.UserHabitsForMonth | bot/utils/cached_db.py:157-159 | a habit is returned iff it is the user's and its stripped year-month equals the stripped argument |
| CachedDb.DbCache.HasExistingCoreHabits | bot/utils/cached_db.py:161-162 | true iff some `core` habit of the user has exactly that year-month |
| CachedDb.DbCache.HasAlreadyCheckedIn | bot/utils/cached_db.py:183-191 | true iff some `core` score row of the user has that date text |
| CachedDb.DbCache.UserCheckinSummary | bot/utils/cached_db.py:193-194 | exactly the user's unstripped `core` score rows for the date |
| CachedDb.DbCache.LogCheckinToCache | bot/utils/cached_db.py:196-212 | one check-in row appended with the next id; the score log is untouched |
| CachedDb.DbCache.AddDndPeriodToCache | bot/utils/cached_db.py:225-242 | one entry holding the parsed dates is appended under `NextDndId`, which stands for the id the database assigns on flush (see Findings and Left out), an id no earlier row carries |
| CachedDb.DbCache.AppendDndPeriod | bot/utils/cached_db.py:230-242 | the appended entry carries the parsed dates and the id `NextDndId` of the log before it, standing for the database-assigned id |
| CachedDb.MaxDndIdBounds | bot/utils/cached_db.py:231 | no row of the log has an id above `MaxDndId` |
| CachedDb.NextDndIdFresh | bot/utils/cached_db.py:231 | no row of the log carries the id `NextDndId` hands out |
| CachedDb.NextDndIdAgrees | bot/utils/cached_db.py:231 | on a log holding the ids 1, 2, ... in order, the corrected id is the source's `len(dnd_log) + 1` |
| CachedDb.SourceDndIdCollides | bot/utils/cached_db.py:231 | with rows 1 and 2 loaded and row 1 deleted, `len(dnd_log) + 1` hands out 2, the id of the remaining row; `NextDndId` does not. Only a direct caller of the cache functions meets this; the `/dnd` handlers flush and reload first |
| CachedDb.DbCache.DndEntriesForUser | bot/utils/cached_db.py:256-257 | an entry is returned iff it is in the log and belongs to the user |
| CachedDb.DbCache.IsDateInDndPeriod | bot/utils/cached_db.py:259-268 | true iff some row of the user and habit covers the parsed date, both ends included |
| CachedDb.DbCache.IsInDndPeriodOn | bot/utils/cached_db.py:261-268 | the scan's answer equals `InDnd` over the whole log |
| CachedDb.DbCache.StreakSummary | bot/utils/cached_db.py:271-272 | exactly the `streak` rows of that date |
| CachedDb.DbCache.HabitsForDate | bot/utils/cached_db.py:275-277 | the habits of the date's `%Y%m` month |
| CachedDb.DbCache.CheckRestDayEligibility | bot/utils/cached_db.py:280-285 | true iff there are at least six prior check-ins and the six newest (`LastSix`) are all done; in particular true when at least six prior check-ins are all done |
| CachedDb.DbCache.HabitTimestamp | bot/utils/cached_db.py:288-293 | `None` iff the month has no habits, else their latest creation instant |
| CachedDb.DbCache.DeleteDndEntryFromCache | bot/utils/cached_db.py:296-304 | found iff some entry has the id; only the first such entry is removed |
| CachedDb.DbCache.UpdateDndEntryToCache | bot/utils/cached_db.py:318-331 | found iff some entry has the id; on the first one, each field is replaced only by a truthy new value |
| CachedDb.WithoutEntry | bot/utils/cached_db.py:296-304 | the log is unchanged when no entry has the id, and one entry shorter otherwise |
| CachedDb.WithoutEntryAt | bot/utils/cached_db.py:296-304 | removal cuts out exactly the first entry with the id, keeping the rest in order |
| CachedDb.WithEdit | bot/utils/cached_db.py:318-331 | the edited log has the same length, and is unchanged when no entry has the id |
| CachedDb.WithEditAt | bot/utils/cached_db.py:318-331 | only the first entry with the id is edited; every other entry is kept |
| CachedDb.Edited | bot/utils/cached_db.py:322-328 | id, user and habit are kept; text and dates change only where the new value is truthy |
| Sorting.SortDesc | bot/utils/cached_db.py:283 | the result is a permutation of the input, sorted by descending date text |
| Sorting.InsertDescStable | bot/utils/cached_db.py:283 | an inserted element lands ahead of the elements with its own key and keeps their order |
| Sorting.SortDescStable | bot/utils/cached_db.py:283 | the sort is stable: the elements with any one key keep their input order, as Python's `sort(reverse=True)` does |
| Sorting.TakeHoldsLargest | bot/utils/cached_db.py:283-284 | the first `n` of a descending list hold keys no smaller than any key left behind |
| Scheduler.ParseHHMM | bot/scheduler.py:25-26 | a value only for text of at least three characters, since `int('')` raises |
| Scheduler.ParseHHMMRoundTrip | bot/scheduler.py:25-26 | a zero-padded `HHMM` parses back to its hour and minute |
| Scheduler.ParseHHMMThreeDigits | bot/scheduler.py:25-26 | `"900"` reads as 90 hours and 0 minutes; the split is always after two characters |
| Scheduler.SleepSecondsValue | bot/scheduler.py:228 | the interval `HHMM…` sleeps `HH*3600 + MM*60` seconds; trailing digits are ignored |
| Scheduler.DefaultSleepIsHalfHour | bot/scheduler.py:228 | the default interval sleeps 1800 seconds |
| Scheduler.FormatReminderMessage | bot/scheduler.py:31-39 | the text starts with the `**LAST REMINDER**` banner iff the count is 3; any other count gives the reminder proper alone; count 3 gives `LastReminder` of the reminder proper, the minutes text (`None` when unknown) and the username |
| Scheduler.LastReminderLayout | bot/scheduler.py:35-37 | the third reminder holds, in order and at stated positions, the banner, the reminder proper, the warning lead, the minutes text, ` minutes. Checkin now @`, the username and `!` |
| Scheduler.ReminderBaseLayout | bot/scheduler.py:32-34 | the reminder proper holds, at stated positions, the lead, yesterday's weekday name, a comma, yesterday's ISO date and the `/checkin` tail |
| Scheduler.ReminderBaseNamesDay | bot/scheduler.py:32-34 | different days give different reminders |
| Scheduler.StreakEmoji | bot/scheduler.py:69-74 | one blue circle per point of a positive score, a tombstone below zero, nothing at zero |
| Scheduler.SummaryLinesSingle | bot/scheduler.py:64-77 | no line of the summary contains a line break |
| Scheduler.StreakSummaryLines | bot/scheduler.py:64-77 | split at line breaks, the summary is the header, a blank, one line per row in order, a blank and the sign-off |
| Scheduler.ParseConfig | bot/scheduler.py:92 | `None` iff one of the three configured times does not parse |
| Scheduler.FirstOfMonth | bot/scheduler.py:119-121 | day 1 of the same year and month, a valid date on or before the given one with the same `%Y%m` text |
| Scheduler.DndMissedMembers | bot/scheduler.py:146-155 | the DND habits are exactly the core habits in a DND window that day; the missed ones are the others |
| Scheduler.DndMissedPartition | bot/scheduler.py:146-155 | the two counts add up to the number of core habits |
| Scheduler.DailyResetAsWritten | bot/scheduler.py:51-62 | counters are cleared iff a stamp exists from another day; the stamp is always today afterwards |
| Scheduler.SummaryNeverPostedAsWritten | bot/scheduler.py:81-94 | after the reset as written, the summary guard is false for every state and time |
| Scheduler.CheckEligible | bot/scheduler.py:106-130 | the user is handled iff the id is non-zero, the month has core habits and yesterday has no check-in |
| Scheduler.ClassifyHabits | bot/scheduler.py:142-155 | one status per habit (`⛔` in DND, else `❌`) and the two counts |
| Scheduler.ClassifyStep | bot/scheduler.py:146-155 | one more habit adds one to exactly one of the counts |
| Scheduler.BuildAutoRows | bot/scheduler.py:156-171 | one `auto` row per core habit, in order, with its status |
| Scheduler.ReminderState.constructor | bot/scheduler.py:19-23 | every dictionary starts empty and no stamp is set |
| Scheduler.ReminderState.ResetReminderCount | bot/scheduler.py:41-45 | only this user's counter and reminder time are forgotten |
| Scheduler.ReminderState.DailyResetIfNeeded | bot/scheduler.py:51-62 | corrected: the counters clear on a new day, using a reset stamp kept apart from the summary stamp; counts stay within 1..3 |
| Scheduler.ReminderState.TickPrelude | bot/scheduler.py:81-102 | the summary is posted iff it is the configured minute and no summary was posted today, and then the stamp is today |
| Scheduler.ReminderState.AutoMarkUser | bot/scheduler.py:135-186 | writes exactly the auto rows for yesterday, stamps the user and resets their reminders |
| Scheduler.ReminderState.RemindUser | bot/scheduler.py:200-209 | the count goes up by one (at most 3) and the time is stamped; the message is the reminder for that count |
| Scheduler.ReminderState.UserTick | bot/scheduler.py:104-217 | an ineligible user gets nothing; an auto-mark or a reminder only when its window applies; counts stay within 1..3 |
| Scheduler.ReminderState.CheckAndPrompt | bot/scheduler.py:79-219 | one action per user, the summary as in `TickPrelude`, and every reminder count within 1..3 |
| Checkin.ManualRowsNeverEarnRestDay | bot/handlers/checkin.py:31 | rows written with this conversation's status tokens never make up six done days |
| Checkin.OrdinalSuffix | bot/handlers/checkin.py:24 | `st`, `nd`, `rd` exactly for 1/21/31, 2/22, 3/23; `th` otherwise |
| Checkin.FormatDateButton | bot/handlers/checkin.py:21-27 | `[`, the day number, then the ordinal suffix, a space, the month name, `, ` and the weekday abbreviation, then `]` |
| Checkin.DateButtonsDiffer | bot/handlers/checkin.py:21-27 | yesterday's and today's buttons never read the same, since their weekdays differ |
| Checkin.DayAbbrsDistinct | bot/handlers/checkin.py:26 | different weekdays have different abbreviations |
| Checkin.SnakeDeltaValue | bot/handlers/checkin.py:36 | the delta reads back as +1 with no misses, else minus the misses |
| Checkin.CheckinAnnouncementLines | bot/handlers/checkin.py:29-40 | split at line breaks, the announcement is the `Check-in Complete for <date>!` headline, a blank line, the DND, done, missed and rest-day lines in that order (one empty line when there are none) and the snake line, which reads "grew by +1" exactly when nothing was missed and "shrank by -k" for k misses |
| Checkin.SnakeLineGrewIff | bot/handlers/checkin.py:36-39 | the snake line says "grew by +1" iff no habit was missed, else "shrank by -" and the miss count |
| Checkin.AnnouncementLineCount | bot/handlers/checkin.py:29-40 | when every status is one of the four tokens, there is one line per habit |
| Checkin.ShouldAnnounce | bot/handlers/checkin.py:70 | an announcement is made iff some status is not DND |
| Checkin.CallbackValue | bot/handlers/checkin.py:152 | `None` iff `split("\|")` does not give exactly two pieces; otherwise the second piece, which holds no `\|` |
| Checkin.DateCallbackRoundTrip | bot/handlers/checkin.py:137-153 | the date button's data reads back as the offered date |
| Checkin.Buttons | bot/handlers/checkin.py:262-266 | done and missed always; rest day iff earned |
| Checkin.AutoFill | bot/handlers/checkin.py:247-251 | masked habits ahead of the cursor are answered `⛔`, and the cursor stops at an unmasked habit or the end |
| Checkin.DndAvailablePartition | bot/handlers/checkin.py:187-193 | the DND and available lists split the habits; nothing is available iff all are masked |
| Checkin.AllMaskedIff | bot/handlers/checkin.py:195 | nothing to ask iff the mask is all true, and then some habit is in DND |
| Checkin.BuildDndMask | bot/handlers/checkin.py:184-193 | the mask and the two lists equal their specification over all habits |
| Checkin.ManualRows | bot/handlers/checkin.py:84-95 | one row per zipped pair (the shorter length) carrying the habit, status, user, date and `manual` |
| Checkin.LogRows | bot/handlers/checkin.py:85-95 | the loop builds exactly `ManualRows` |
| Checkin.ManualRowsPrefix | bot/handlers/checkin.py:85 | `zip` depends only on the common prefix |
| Checkin.CommittedRows | bot/handlers/checkin.py:304-314 | a finished session commits one row per habit, and masked habits commit `⛔` |
| Checkin.AllDnd | bot/handlers/checkin.py:201 | one `⛔` per habit |
| Checkin.AllDndPairsAsWritten | bot/handlers/checkin.py:85 | unpacking succeeds iff every habit text has exactly two characters |
| Checkin.AllDndAsWrittenFails | bot/handlers/checkin.py:201 | a habit named `Run` raises, and `Go` is split into `G` and `o` |
| Checkin.Answer | bot/handlers/checkin.py:291-296 | the answer is recorded at the cursor and the earlier answers are kept |
| Checkin.RecordKeepsShape | bot/handlers/checkin.py:293-294 | recording an answer keeps the session well formed |
| Checkin.AutoFillStopsOnAvailable | bot/handlers/checkin.py:247-251 | a session with an unmasked habit stops on a habit to ask |
| Checkin.NewSession | bot/handlers/checkin.py:225-233 | a fresh session is well formed |
| Checkin.Conversation.constructor | bot/handlers/checkin.py:103 | no sessions and no writes |
| Checkin.Conversation.StartCheckin | bot/handlers/checkin.py:105-143 | end when both days are checked in; else offer yesterday first, then today |
| Checkin.Conversation.PromptDualCheckin | bot/handlers/checkin.py:334-350 | the other date is offered iff it is not yet checked in |
| Checkin.Conversation.Finish | bot/handlers/checkin.py:298-332 | `Committed`: the session's rows are written; reminders are reset iff the date is yesterday and unchanged otherwise; without dual availability it ends; with it, it offers the other date iff the snapshot has no check-in for that date, and ends otherwise |
| Checkin.Conversation.AskNextHabit | bot/handlers/checkin.py:237-280 | stores the session with masked habits answered `⛔`; if a habit is left, `Asked`: that habit is asked with rest-day buttons iff earned, nothing is written, reminders are untouched and nothing is offered; otherwise no question and `Committed` (rows, reminder reset iff yesterday, two-way offer) |
| Checkin.Conversation.Present | bot/handlers/checkin.py:253-280 | stores the session; a waiting session gets `Asked` (its habit with rest-day buttons iff earned, no write, reminders untouched, no offer); a finished one gets no question and `Committed` (rows, reminder reset iff yesterday, two-way offer) |
| Checkin.Conversation.StartHabitCheckin | bot/handlers/checkin.py:163-235 | no habits ends; all masked logs (corrected) one `⛔` row per habit; otherwise a session is stored and a habit asked |
| Checkin.Conversation.StartOnHabits | bot/handlers/checkin.py:183-235 | the all-masked branch (corrected, as in `LogAllDnd`) and the ask branch as above |
| Checkin.Conversation.LogAllDnd | bot/handlers/checkin.py:200-201 | corrected: one `⛔` row per habit, written with the habit ids |
| Checkin.Conversation.OpenSession | bot/handlers/checkin.py:225-235 | the stored session waits on an unmasked habit |
| Checkin.Conversation.Advance | bot/handlers/checkin.py:295-302 | stores the session after masked habits; `Asked` on its next habit, or no question and `Committed` when none is left |
| Checkin.Conversation.RecordAnswer | bot/handlers/checkin.py:291-302 | the answer is recorded and masked habits after it answered `⛔`; then `Asked` on the next habit (no write, reminders untouched), or no question and `Committed` (rows, reminder reset iff yesterday, two-way offer) |
| Checkin.Conversation.HandleHabitResponse | bot/handlers/checkin.py:282-302 | no session ends and unreadable data or a finished session raises, both with no question, no offer, no write and reminders untouched; otherwise the answer is recorded, then `Asked` on the next habit or `Committed` |
| Checkin.Conversation.HandleDateSelection | bot/handlers/checkin.py:145-161 | an unreadable date raises; otherwise the step is `HabitCheckin` and the start for that date, with the dual offer iff the other date is open, has each outcome of `StartHabitCheckin`: nothing without habits, the corrected `⛔` rows when all are masked, else the stored session |
| Checkin.Conversation.HandleDualCheckinResponse | bot/handlers/checkin.py:352-385 | unreadable data raises; `no` ends; otherwise it ends when the other date is checked in or there is no session with a username, and else starts a second session for the other date, without a further offer, with each outcome of `StartHabitCheckin` |
| Checkin.Conversation.StartSecondSession | bot/handlers/checkin.py:384 | the second session uses the first session's username and no offer, with each outcome of `StartHabitCheckin` |
| Dnd.DaysDifference | bot/handlers/dnd.py:27-30 | `None` iff either date does not parse |
| Dnd.DaysDifferencePositive | bot/handlers/dnd.py:27-30 | at least one day iff the start is not after the end; exactly one iff they are equal |
| Dnd.ReadDatePair | bot/handlers/dnd.py:427-446 | accepted iff there are two tokens, both dates, the first not after the second |
| Dnd.AcceptedPeriodLength | bot/handlers/dnd.py:451 | an accepted period's day count equals the number of calendar days it covers |
| Dnd.ParsedPeriodLength | bot/handlers/dnd.py:27-30 | `(end - start).days + 1` equals the calendar-day count |
| Dnd.DatePairRoundTrip | bot/handlers/dnd.py:413-440 | the example format `START END` reads back as that period |
| Dnd.RemoveFirst | bot/handlers/dnd.py:402 | removes exactly one occurrence |
| Dnd.ToggleFlips | bot/handlers/dnd.py:400-404 | a number button flips exactly that number's membership, with no repeats |
| Dnd.ToggleTwice | bot/handlers/dnd.py:400-404 | pressing twice restores the selection |
| Dnd.AllSelection | bot/handlers/dnd.py:397-398 | the numbers 1..n, each once |
| Dnd.PyAt | bot/handlers/dnd.py:248 | Python indexing succeeds iff `-len <= k < len` |
| Dnd.SelectedHabits | bot/handlers/dnd.py:409 | defined iff every index is in range; each element is the habit at that number |
| Dnd.AllSelectsEveryHabit | bot/handlers/dnd.py:397-398 | the all button selects every habit, in order |
| Dnd.PeriodEntries | bot/handlers/dnd.py:247-249 | one entry per selected habit, in order, with ids `base + 1` onward and the period |
| Dnd.AddOps | bot/handlers/dnd.py:250-258 | one queued addition per selected habit |
| Dnd.ConfirmedPeriodCovers | bot/handlers/dnd.py:247-260 | after confirming, every selected habit is in DND on every day of the period, and no new entry has the id of an earlier row |
| Dnd.MaxAfterPeriod | bot/handlers/dnd.py:247-249 | after a confirmation the largest id is the old largest plus the number of habits added |
| Dnd.DndEditor.constructor | bot/handlers/dnd.py:68-105 | an empty session over the given cache |
| Dnd.DndEditor.InitPending | bot/handlers/dnd.py:40-42 | an empty queue is created only when none exists |
| Dnd.DndEditor.RecordPending | bot/handlers/dnd.py:44-47 | the operation is appended to the queue |
| Dnd.DndEditor.ApplyPending | bot/handlers/dnd.py:49-62 | every queued operation goes to the database in order, then the queue is empty |
| Dnd.DndEditor.DndCommand | bot/handlers/dnd.py:68-105 | takes the snapshot and a queue, then shows the list |
| Dnd.DndEditor.ShowDndList | bot/handlers/dnd.py:273-309 | the edit list iff the user has entries |
| Dnd.DndEditor.StartAddFlow | bot/handlers/dnd.py:349-381 | no habits ends; more than ten raises; otherwise habits are offered with an empty selection |
| Dnd.DndEditor.DndListEntry | bot/handlers/dnd.py:106-122 | `dnd_done` flushes the queue and ends; `dnd_add` has `start_add_dnd_flow`'s outcome (no habits ends; otherwise the month's habits with an empty selection, and more than ten raise); `dnd_edit` lists; other data stays; habits and selection change only on `dnd_add`, the queue only on `dnd_done` |
| Dnd.DndEditor.HandleHabitSelection | bot/handlers/dnd.py:384-417 | cancel ends; all selects every habit; a number toggles; an empty selection ends; an index out of range raises |
| Dnd.DndEditor.HandleDateInput | bot/handlers/dnd.py:420-467 | only an accepted period is stored, and the reply counts its days |
| Dnd.DndEditor.StorePeriod | bot/handlers/dnd.py:447-467 | stores the period; the day count is the calendar-day count |
| Dnd.DndEditor.HandleConfirmation | bot/handlers/dnd.py:213-268 | cancel ends; edit asks again; confirm adds the period for each selected habit and flushes the queue |
| Dnd.DndEditor.ConfirmPeriod | bot/handlers/dnd.py:236-268 | the cache gains `PeriodEntries`, and the database receives the old queue then `AddOps` |
| Dnd.DndEditor.AddPeriodForSelection | bot/handlers/dnd.py:247-259 | the loop adds one entry and one queued addition per habit, counting them |
| Dnd.DndEditor.AddOne | bot/handlers/dnd.py:248-259 | the entry for `hs[i]` is appended, numbered on from the entries already added, and its addition is queued |
| Dnd.DndEditor.HandleEditSelect | bot/handlers/dnd.py:310-348 | a valid index picks the user's entry; an index past the list relists |
| Dnd.DndEditor.HandleEditAction | bot/handlers/dnd.py:123-162 | delete removes the chosen entry and queues its deletion; habit loads the month's habits as choices; dates asks; back relists; the choices change only on `habit` |
| Dnd.DndEditor.HandleEditHabit | bot/handlers/dnd.py:163-182 | the chosen entry takes the new habit text, in the cache and in the queue |
| Dnd.DndEditor.HandleEditDates | bot/handlers/dnd.py:183-212 | an accepted period replaces the entry's dates, in the cache and in the queue |
| SetHabits.CommaItemsShape | bot/handlers/sethabits.py:146 | every item is non-empty, stripped and comma-free |
| SetHabits.CommaItemsOfJoin | bot/handlers/sethabits.py:146 | items joined by commas parse back to the same items |
| SetHabits.LastWordDecides | bot/handlers/sethabits.py:39-59 | only the last word decides whether a habit ends with an emoji |
| SetHabits.VerdictOfWords | bot/handlers/sethabits.py:45-59 | the verdict is the last word's, given the words of the stripped text |
| SetHabits.EditButtonRoundTrip | bot/handlers/sethabits.py:159-174 | an edit button matches the handler's pattern and carries its own index |
| SetHabits.EditDataPieces | bot/handlers/sethabits.py:174 | `split("_")` gives `edit`, `core` and the digits |
| SetHabits.ShownName | bot/handlers/sethabits.py:212 | the username when truthy, else the first name |
| SetHabits.FormatHabitAnnouncement | bot/handlers/sethabits.py:21-37 | defined iff the month part is a `%m` token; then it ends with the habit total |
| SetHabits.HabitAnnouncementLines | bot/handlers/sethabits.py:21-29 | split at line breaks, the announcement is the headline naming the month and year, a blank line, one `• habit` line per habit in the given order (one empty line when there are none), a blank line and the total |
| SetHabits.AnnouncementNamesMonth | bot/handlers/sethabits.py:21-29 | for a printed month, the headline names that month and year |
| SetHabits.Conversation.constructor | bot/handlers/sethabits.py:61-66 | no stored habits, index, writes or announcements |
| SetHabits.Conversation.StartSetHabits | bot/handlers/sethabits.py:61-112 | a missing month ends; an unreadable month raises; another month asks for confirmation; existing core habits end; otherwise asks for the habits |
| SetHabits.Conversation.GetCoreHabits | bot/handlers/sethabits.py:144-170 | stores the list iff it has 2..4 items each ending with an emoji, then offers one edit button per habit |
| SetHabits.Conversation.EditCoreHabit | bot/handlers/sethabits.py:172-177 | remembers the button's index |
| SetHabits.Conversation.SaveEditedCoreHabit | bot/handlers/sethabits.py:179-199 | the stripped text replaces only the habit at the stored index; no emoji asks again; a bad index raises |
| SetHabits.Conversation.SaveCoreHabits | bot/handlers/sethabits.py:209-242 | refused when core habits exist; otherwise one write of the 2..4 stored habits under the month, announced when the month formats |
| LegacySetHabits.GetCoreHabits | handlers/sethabits.py:13-20 | the list is stored iff it has two to four items |
| LegacySetHabits.CoreOfJoinedHabits | handlers/sethabits.py:13-20 | habits typed with commas are stored as typed |
| LegacySetHabits.SkipInAnyCase | handlers/sethabits.py:23-24 | `skip` in any case, with surrounding whitespace, gives no bonus habits |
| LegacySetHabits.GetBonusHabits | handlers/sethabits.py:22-35 | more than five asks again; otherwise saves the row under today's `%Y-%m` |
| LegacySetHabits.BonusItemsNonBlank | handlers/sethabits.py:24 | bonus items are non-empty |
| LegacySetHabits.SavedRowReadsBack | handlers/sethabits.py:22-35 | the saved row has eleven columns, and its non-blank cells read back as the two lists |
| Sheets.Blanks | utils/sheets.py:12 | `[""] * n` is empty for `n <= 0` |
| Sheets.RowLayout | utils/sheets.py:11-13 | each list sits at its offset; padding only adds blanks |
| Sheets.RowLengthEleven | utils/sheets.py:12 | within the enforced bounds, a row has eleven columns |
| Sheets.RowReadBack | utils/sheets.py:12 | the non-blank core and bonus cells are the two lists |
| Validation.PyIntOf | bot/utils/validation.py:162 | an integer is itself; `None` raises |
| Validation.ValidateHabitName | bot/utils/validation.py:122-149 | accepted iff the stripped name has 2..50 characters and no markup |
| Validation.ValidateNickname | bot/utils/validation.py:196-223 | accepted iff the stripped nickname has 1..20 characters and no markup |
| Validation.ValidateHabitGoal | bot/utils/validation.py:151-173 | accepted iff it is an integer from 1 to 100 |
| Validation.ValidateUserId | bot/utils/validation.py:225-244 | accepted iff it is a positive integer |
| Validation.GoalTextAsNumber | bot/utils/validation.py:151-173 | a goal typed as text is judged as its number |
| Validation.UserIdTextAsNumber | bot/utils/validation.py:225-244 | a user id typed as text is judged as its number |
| Validation.ValidateEmail | bot/utils/validation.py:73-92 | blank or matching the pattern |
| Validation.EmailScanMatchesPattern | bot/utils/validation.py:84-88 | the executable scan accepts exactly what the pattern matches |
| Validation.ValidateDateFormat | bot/utils/validation.py:45-71 | accepted iff the stripped text matches the pattern and `strptime` accepts it |
| Validation.PrintedDateAccepted | bot/utils/validation.py:45-71 | every date the bot prints is accepted |
| Validation.AcceptedDateIsCanonical | bot/utils/validation.py:45-71 | an accepted text is exactly how its date prints |
| Validation.ValidateTimezone | bot/utils/validation.py:94-120 | accepted iff the stripped text is a supported zone |
| Validation.SupportedZonesAccepted | bot/utils/validation.py:94-120 | each supported zone is accepted, with or without surrounding spaces |
| Validation.ValidateSheetData | bot/utils/validation.py:246-268 | not a dict is rejected; otherwise accepted iff every field is present and not `None`, else the first failing field is named |
| Validation.RemoveMarkup | bot/utils/validation.py:284 | never longer than its input |
| Validation.RemoveMarkupClean | bot/utils/validation.py:284 | no markup survives |
| Validation.RemoveMarkupKeeps | bot/utils/validation.py:284 | text without markup is unchanged |
| Validation.SanitizeInput | bot/utils/validation.py:270-291 | at most 1000 characters |
| Validation.SanitizedIsClean | bot/utils/validation.py:270-291 | the result holds no markup |
| Validation.AcceptedTextSurvivesSanitize | bot/utils/validation.py:270-291 | an accepted habit name or nickname comes through as its stripped self |
| Validation.ValidateCallbackData | bot/utils/validation.py:293-309 | accepted iff non-empty and starting with the prefix |
| Helpers.PyStr | bot/utils/helpers.py:275 | `str` of a string is itself; of an integer, it reads back as that integer |
| Helpers.FormatUserDisplayName | bot/utils/helpers.py:27-32 | with a truthy usermoji, the text of the nickname (default `Unknown`), a space and the usermoji; otherwise the stored nickname value itself, or `Unknown` when there is none |
| Helpers.DisplayNameReadBack | bot/utils/helpers.py:27-32 | a one-word nickname and the usermoji are read back at the first space |
| Helpers.ParseTimeString | bot/utils/helpers.py:45-57 | corrected: only four-character texts of an hour 0..23 and minute 0..59 parse |
| Helpers.ParseTimeStringAsWritten | bot/utils/helpers.py:45-57 | as written, never yields a time |
| Helpers.ParseTimeAsWrittenRaises | bot/utils/helpers.py:53-55 | as written, it raises exactly on the inputs the corrected parser reads |
| Helpers.ParseTimeCounterexample | bot/utils/helpers.py:55 | every valid `HHMM`, e.g. `0930`, raises as written but parses when corrected |
| Helpers.PadTimeRoundTrip | bot/utils/helpers.py:45-57 | every `HHMM` time reads back as itself |
| Helpers.CalculateAge | bot/utils/helpers.py:137-148 | defined iff the birth date parses |
| Helpers.AgeIsBirthdaysPassed | bot/utils/helpers.py:137-148 | the age-th anniversary is on or before today and the next one is after today |
| Helpers.AgeNonNegative | bot/utils/helpers.py:137-148 | nobody born on or before today has a negative age |
| Helpers.MissingFieldErrors | bot/utils/helpers.py:165-167 | at most one message per field |
| Helpers.NoMissingFields | bot/utils/helpers.py:165-167 | no message iff every field is present and truthy |
| Helpers.NameErrors | bot/utils/helpers.py:170-175 | no error iff the stripped name has 2..50 characters |
| Helpers.GoalErrors | bot/utils/helpers.py:178-186 | no error iff the goal reads as an integer from 1 to 100 |
| Helpers.CategoryErrors | bot/utils/helpers.py:189-191 | no error iff the category is one of the six listed |
| Helpers.CollectMissingFields | bot/utils/helpers.py:164-167 | the loop builds exactly `MissingFieldErrors` |
| Helpers.ValidateHabitData | bot/utils/helpers.py:161-193 | equals the specification, including the AttributeError on a non-string name |
| Helpers.HabitDataValidIff | bot/utils/helpers.py:161-193 | no errors iff all fields are given, the name and goal are in range, and the category is listed |
| Helpers.GoalCheckAgrees | bot/utils/helpers.py:178-186 | on a truthy goal, agrees with `validate_habit_goal` |
| Helpers.ExtractCallbackData | bot/utils/helpers.py:255-258 | `None` iff the prefix is absent; otherwise prefix plus result is the data |
| Helpers.ExtractBuiltCallback | bot/utils/helpers.py:255-258 | data built as prefix plus payload yields the payload |
| Helpers.CallbackValidationAgrees | bot/utils/helpers.py:255-258 | validation accepts exactly the non-empty data that extraction can read |
| Helpers.RemoveControls | bot/utils/helpers.py:278 | never longer than its input |
| Helpers.RemoveControlsClean | bot/utils/helpers.py:278 | no control character survives |
| Helpers.RemoveControlsKeeps | bot/utils/helpers.py:278 | clean text is unchanged |
| Helpers.SanitizeSheetValue | bot/utils/helpers.py:271-280 | `None` gives the empty text; otherwise no longer than the stripped `str` |
| Helpers.SanitizedSheetValueClean | bot/utils/helpers.py:271-280 | the result holds no control character |
| Helpers.SanitizeKeepsCleanValues | bot/utils/helpers.py:271-280 | clean stripped text is unchanged, and an integer becomes its decimal text |
| Helpers.FormatStreakDisplay | bot/utils/helpers.py:293-298 | always starts with the fire mark |
| Helpers.StreakDisplayInjective | bot/utils/helpers.py:293-298 | different counts display differently |
| Helpers.StreakCountReadBack | bot/utils/helpers.py:293-298 | "No streak yet" iff the count is zero; otherwise the count reads back |
| Helpers.GetHabitProgressEmoji | bot/utils/helpers.py:312-319 | white iff none done; yellow, green, purple below, at and above the goal |
| Helpers.ProgressMonotone | bot/utils/helpers.py:312-319 | for a positive goal, more completions never show less progress |
| Dates.PrevDay | bot/scheduler.py:28-29 | a valid date whose ordinal is one less |
| Dates.PrevDayIsLatestBefore | bot/handlers/checkin.py:114 | yesterday is the latest date before today |
| Dates.DayCountIsDaysBetween | bot/handlers/dnd.py:27-30 | counting day by day equals `(b - a).days + 1` |
| Dates.WeekdayOfPrevDay | bot/scheduler.py:33 | consecutive days have consecutive weekdays |
| Dates.ParseFormatIsoDate | bot/utils/cached_db.py:260 | `strptime` of what `strftime('%Y-%m-%d')` printed is the same date |
| Dates.IsoTextOrder | bot/utils/cached_db.py:281-282 | Python's `<` on ISO date texts is `Before` on the dates, and equal texts are equal dates |
| Dates.ParseFormatYearMonth | bot/scheduler.py:119-120 | `strptime('%Y%m')` of a printed month is the first of that month |

## Left out

- Telegram I/O. Messages, keyboards and `edit_message_text` are not modelled, except the texts the model formats. A failed `send_message` inside a `try` is not modelled.
- The database itself. The `*_to_db` coroutines are outbox entries. `refresh_cache` reloading the tables is left out, because handlers keep the snapshot they took at entry.
- Clocks and time zones. `datetime.now()`, `pytz` and `asyncio.sleep` become parameters: the local date and minute per user, and the current instant.
- `get_user_timezone`, `convert_to_user_timezone`, `format_time_for_display`, `format_date_for_display`, `format_habit_summary` and `create_inline_keyboard`: presentation helpers and time-zone conversion, which are not part of this model.
- `validate_emoji` and `validate_habit_category`: not used by the modelled handlers. The category list is modelled only inside `validate_habit_data`.
- `validate_habit_emoji`: the emoji library's three tests are the parameter `libraryEmoji`. The fallback when the library is missing is left out.
- `handle_month_confirm` and `prompt_core_habits`: they only forward to the prompt and send a message.
- `send_checkin_announcement`: only the guard (`ShouldAnnounce`) and the message are modelled. Reading the summary row's JSON is left out.
- Unicode digits. `int()` and `strptime` also accept non-ASCII digits and `_` separators. The model accepts ASCII digits only.
- CachedDb.DbCache.AddDndPeriodToCache, CachedDb.DbCache.IsDateInDndPeriod, CachedDb.DbCache.UpdateDndEntryToCache: they require date texts that parse. The `ValueError` that `strptime` raises otherwise is not modelled, because every caller passes a date it printed or has already read.
- Scheduler.ParseHHMM: its contract states only the length needed for a value. The values themselves are stated by `ParseHHMMRoundTrip` and `ParseHHMMThreeDigits`.
- Scheduler.ReminderState.CheckAndPrompt: states the summary decision, one action per user and the 1..3 bound on reminder counts. What each user's action is lives on `UserTick`, because a combined contract did not fit the proof budget.
- Scheduler.ReminderState.UserTick: the window checks read the user's local minutes as a parameter. The time-zone lookup that produces them is left out.
- Python values (`Validation.PyValue`) are limited to strings, integers and `None`. This holds wherever the model takes one: the display name, `str()` (`PyStr`), the goal and user-id checks, habit data, `sanitize_sheet_value` and `validate_sheet_data`. Other Python objects and their `str` are not modelled.
- Helpers.MissingFieldErrors: its contract states only the length bound. The iff lives in `NoMissingFields`.
- Helpers.FormatStreakDisplay: its contract states only the prefix. What the display means is stated by `StreakDisplayInjective` and `StreakCountReadBack`.
- Validation.RemoveMarkup and Helpers.RemoveControls: their contracts state only the length bound. Cleanliness and identity on clean text are the lemmas beside them.
- Dnd.DndEditor.StartAddFlow: the ten-button limit is modelled as the `IndexError` raised when there are more than ten habits. The button layout is not modelled.
- CachedDb.DbCache.AddDndPeriodToCache and CachedDb.DbCache.AppendDndPeriod: the new row's id is `NextDndId`, one past the largest id. It stands for the id the database assigns when the queue is flushed, because reloading the cache afterwards is left out. The source's `len(dnd_log) + 1` is stated only of `CachedDb.SourceDndId`.
- Concurrency. Each handler is one atomic step, and the scheduler tick does not interleave with handlers.

## Findings

| source | as written | input that shows it | evidently intended | confidence | as-written member | corrected member |
|---|---|---|---|---|---|---|
| bot/scheduler.py:51-62,93-94 | `daily_reset_if_needed` stamps `summary_sent_today` with today before the summary check, so `summary_sent_today != today` is always false | any tick at the configured summary minute, where the reset and the summary check see the same date (the model reads the clock once per tick; two readings straddling midnight are not modelled) | post the streak summary once a day, with a separate stamp for the daily reset | not executed | Scheduler.SummaryNeverPostedAsWritten | Scheduler.ReminderState.TickPrelude |
| bot/handlers/checkin.py:201 | the all-DND branch passes habit texts where `(habit_id, habit_text)` pairs are unpacked at line 85 | a month whose only habit, `Run`, is in a DND window: `ValueError`, nothing logged | log one `⛔` row per habit, with its id | not executed | Checkin.AllDndAsWrittenFails | Checkin.Conversation.LogAllDnd |
| bot/utils/helpers.py:55 | `datetime.time(hour, minute)` is called on the `datetime` class, which raises `TypeError` | `"0930"` | return the time 09:30 | not executed | Helpers.ParseTimeCounterexample | Helpers.PadTimeRoundTrip |
| bot/utils/cached_db.py:231 | `add_dnd_period_to_cache` gives a new DND row the id `len(dnd_log) + 1`, which a remaining row already carries once a row has been deleted or when the loaded ids are not 1..n | rows 1 and 2 loaded, row 1 deleted, then a direct call of `add_dnd_period_to_cache`: the new row gets id 2, and a later direct `update_dnd_entry_to_cache` or `delete_dnd_entry_from_cache` on id 2 acts on the older row. Only such a direct caller sees it: the `/dnd` handlers never read the cache id, because `handle_confirmation` discards it (bot/handlers/dnd.py:249), flushes the queue so the database assigns its own id (bot/utils/db.py:134-142) and reloads the cache (bot/handlers/dnd.py:60) before the conversation ends | an id that no row of the log carries | not executed | CachedDb.SourceDndIdCollides | CachedDb.NextDndIdFresh |
