# PlanEveryDay task manager — a Dafny model

This project models the data side of the PlanEveryDay planner in `script.js`.
It has two parts.

**TaskManager**
- It keeps daily (recurring) tasks, single-day tasks, completion records and statistics.
- It stores them in the browser's local storage under a per-user prefix (`guest_` or `user_<uid>_`).
- It projects the tasks onto a window of days, from a week back to the last projected day.
- It keeps the statistics: per-day and per-kind counters, the streak, the weekly completion rate, and cumulative per-task entries for daily tasks.

**AuthManager**
- It switches the task manager between the guest namespace and a user's namespace when the user signs in or out.
- On sign-in, it merges the guest session's data into the user's.
- It computes the initials shown when a user has no avatar.

## How the model is built

**Dates and parameters**
- Calendar dates are day numbers. The source's `YYYY-MM-DD` strings compare the same way.
- The clock (today, now), freshly generated ids and the last projected day are parameters.
- The cloud's answer to a read is also a parameter: a document, no document, or a failure.

**Modules**
- The pure parts are functions with lemmas:
  - identifying, finding and merging tasks and records (`TaskStore`);
  - the projection and the single-task lists (`Projection`);
  - the counters, streak, weekly rate, per-task entries and paging (`Stats`);
  - initials (`Auth`), the persistence timer (`Timer`), translations (`I18n`).
- `Effects` writes each TaskManager operation as a function from the whole session state before to the state after. It follows the order in which the source runs its steps.
- `Manager` holds:
  - a `Storage` class for local storage;
  - a `TaskManager` class whose methods update its fields in place and are proved to compute exactly those functions;
  - the sign-in and sign-out handlers.
  - Its loops (the guest merge, the projection, the rebuild of per-task statistics, the reclassification, the weekly count and the streak count) are methods proved against the specification functions.
- `Properties` states what the operations promise, over the `Effects` functions.

**Behaviour kept exactly as written, and proved**
- The per-task entry of a daily task is credited on *today*'s count of records, whatever day the record is for (`Stats.IncrementalUsesToday`).
- A first sign-in for which the cloud has no document merges the guest snapshot into the same data. Every day's and every kind's completion counter doubles, and the total is reset to the number of records (`Properties.FirstSignInCountsTwice`).
- A daily task is no longer shown on the day its `endDate` names, because that day's timestamp is already past the date's UTC midnight (`Projection.ActiveOn`, through `Projection.DailyOccurrences`).
- Merging statistics twice adds the guest counters twice (`Stats.MergeCountsTwice`, `Properties.GuestMergeTwice`).
- `cleanupTaskClassification` keeps only `daily` tasks in a daily list it has to filter, and only `single` tasks in a single list it has to filter. A task of any other kind in such a list is dropped (`TaskStore.ReclassifyConserves` states the conservation for the two known kinds only).

## Model

| member | source | states |
|---|---|---|
| Auth.Trim | script.js:184 | `trim()` returns one contiguous slice of the text |
| Auth.TrimStartCuts | script.js:184 | everything dropped from the front is white space, and what is kept does not start with white space |
| Auth.TrimEndCuts | script.js:184 | everything dropped from the back is white space, and what is kept does not end with white space |
| Auth.TrimRemovesWhiteSpace | script.js:184 | `trim()` cuts away only white space, at both ends, and neither end of the result is white space |
| Auth.TrimIdempotent | script.js:184 | trimming twice is trimming once |
| Auth.Split | script.js:184 | `split(' ')` yields at least one piece, no piece contains a space, and the last piece is empty exactly when the text is empty or ends in a space |
| Auth.JoinSplit | script.js:184 | joining the pieces of a split with single spaces gives back the text |
| Auth.SplitJoin | script.js:184 | splitting a space-joined list of space-free words gives back the list |
| Auth.SplitAppendWord | script.js:184 | appending a space and a word adds exactly that word as a last piece |
| Auth.SplitWord | script.js:184 | a space-free text splits into itself alone |
| Auth.FirstOrUndefined | script.js:187 | `words[i][0]` in string concatenation: the first character of a non-empty word, the text "undefined" for an empty one |
| Auth.UpperChar | script.js:187 | ASCII lower-case letters map to upper case (code minus 32), every other character is kept |
| Auth.ToUpper | script.js:187 | upper-casing keeps the length and maps each character on its own |
| Auth.FirstTwo | script.js:190 | `substring(0, 2)` is the prefix of length min(2, length) |
| Auth.DoubleSpaceGivesUndefined | script.js:181-192 | the code as written turns the name "a  b" into "AUNDEFINED" |
| Auth.DoubleSpaceCorrected | script.js:181-192 | the corrected initials of the name "a  b" are "AB" |
| Auth.Words | script.js:184 | the corrected split keeps only non-empty, space-free words made of the name's characters |
| Auth.ExtractInitials | script.js:181-192 | corrected initials: "?" for an empty name, otherwise one or two characters, each the upper-case form of a character of the name |
| Auth.AllPiecesNonEmpty | script.js:184 | a trimmed text without double spaces splits into non-empty pieces only |
| Auth.WordsArePieces | script.js:184 | without double spaces, the corrected words are exactly the pieces of the trimmed name |
| Auth.InitialsAgreeWithoutDoubleSpace | script.js:181-192 | for every name whose trimmed form has no double space, the corrected initials equal the initials as written |
| I18n.GetText | script.js:582-584 | a present, non-empty translation is returned, otherwise the key itself; the result is empty only for the empty key |
| I18n.GetUnit | script.js:2450-2456 | 'count' gives the translation of "times", 'time' that of "minutes"; the unit is non-empty exactly for those two dimensions |
| I18n.MissingFrom | script.js:2754-2755 | a key is reported missing exactly when it is in one table's keys and not in the other's |
| I18n.CheckTranslationCompleteness | script.js:2748-2776 | no issues exactly when both tables have the same keys; at most two issues, and when there are two the Chinese one comes first, so each kind appears at most once; each issue lists exactly the keys missing on its side, and every missing key is listed |
| Timer.JsRem | script.js:2578-2579 | `%` truncates toward zero: the remainder has the sign of the dividend and is smaller in size than the divisor |
| Timer.FloorDiv | script.js:2577 | `Math.floor(a / b)` is the q with b·q ≤ a < b·q + b |
| Timer.ElapsedOf | script.js:2575-2579 | for a non-negative difference the minutes and seconds lie in 0..59 and hours, minutes and seconds recompose the whole seconds of the difference |
| Timer.ElapsedParts | script.js:2575-2579 | hours·3600000 + minutes·60000 + seconds·1000 is the difference minus its milliseconds |
| Timer.HourlyTriggerAfterStart | script.js:2585-2587 | once started, minutes and seconds are both 0 exactly when the difference is a whole hour plus less than a second |
| Timer.HourlyTriggerBeforeStart | script.js:2585-2587 | with a start in the future (a negative difference), minutes and seconds are both 0 exactly at whole hours, because the truncating remainder makes the minutes negative in between |
| Timer.HourlyTrigger | script.js:2585-2587 | the confetti test fires exactly in the first second of every whole hour after the start, and before the start only at exact whole hours |
| Timer.NatTextValue | script.js:2581 | the decimal text of a number reads back as that number |
| Timer.PadStart | script.js:2581 | `padStart` pads with zeros on the left up to the width and never cuts |
| Timer.PadStartValue | script.js:2581 | zero-padding keeps the value a digit string reads as |
| Timer.FieldValue | script.js:2581 | each padded field fills at least its width, exactly two places below 60, and reads back as its number |
| Timer.TimerText | script.js:2567-2571 | no start time shows "000:00:00" |
| Timer.ElapsedTextReadsBack | script.js:2581 | the text "hhh:mm:ss" has at least three hour digits and two digits for minutes and seconds, and its fields read back as hours, minutes and seconds |
| Timer.TimerTextReadsBack | script.js:2567-2582 | from a start not after now, the displayed text reads back as the elapsed hours, minutes and seconds |
| Seqs.Filter | script.js:969 | `filter` keeps exactly the elements satisfying the predicate and never lengthens the list |
| Seqs.FilterSplit | script.js:961-982 | filtering by a predicate and by its negation splits the list as a multiset |
| Seqs.SortBy | script.js:2368-2372 | the sort used for the task lists yields a list ordered by the key that is a permutation of its input |
| Seqs.SortByStable | script.js:2368-2372 | the sort is stable, like `Array.prototype.sort`: the items with any one key come out in their input order |
| TaskStore.TargetOrDefault | script.js:1053 | `targetValue \|\| 1`: a given non-zero target is kept, a missing or zero one becomes 1 |
| TaskStore.FindById | script.js:1113 | `find` by id: none exactly when no element has the id, otherwise the first element with it |
| TaskStore.FindTask | script.js:1113 | the daily list is searched before the single list; none exactly when neither list holds the id |
| TaskStore.IndexOfRecord | script.js:2626-2627 | `findIndex`: -1 exactly when no record has the id, otherwise the first index with it |
| TaskStore.ActualValue | script.js:1129 | `customValue \|\| task?.targetValue \|\| 1`: never 0; a non-zero custom value wins, then a non-zero target of the task, and otherwise the value is 1 |
| TaskStore.NewRecord | script.js:1123-1133 | the record carries its id, task id, task type, day, completion time and note. Its value is `ActualValue`, never 0. A known task gives its name and its dimension, or 'simple' when the dimension is empty. An unknown task gives an empty name and the dimension 'simple' |
| TaskStore.WithoutFirstRecord | script.js:2626-2630 | an unknown id leaves the records as they are; otherwise exactly the first record with the id is spliced out |
| TaskStore.MergeById | script.js:890-912 | the union by id: the target list is a prefix, what follows comes from the guest list with ids new to the target and pairwise distinct, and every guest id ends up present |
| TaskStore.MergeKeepsGuestOrder | script.js:890-912 | the items the merge appends come in the guest list's order |
| TaskStore.MergeAllPresent | script.js:890-912 | when every guest id is already present, the merge changes nothing |
| TaskStore.MergeIdempotent | script.js:890-912 | merging the same guest list a second time changes nothing |
| TaskStore.MergeKeepsIdsDistinct | script.js:890-912 | a target list with distinct ids stays that way |
| TaskStore.Reclassify | script.js:957-985 | afterwards every daily task is in the daily list and every single task in the single list; a list that needed no move keeps its contents as a prefix |
| TaskStore.ReclassifyFixpoint | script.js:957-985 | the lists are left as they are exactly when they are already separated, and reclassifying twice is reclassifying once |
| TaskStore.ReclassifyConserves | script.js:957-985 | every task of a known kind appears as often afterwards as before; a task of another kind never appears more often |
| Projection.DailyOccurrences | script.js:1160-1169 | a day gets an occurrence for exactly the daily tasks active on it, marked completed exactly when a record of that task and day exists |
| Projection.SingleOccurrences | script.js:1172-1181 | a day gets an occurrence for exactly the single tasks scheduled on it, with the same completion flag |
| Projection.ProjectionMeaning | script.js:1155-1194 | an occurrence is projected on a day exactly when its task is active there (daily) or scheduled there (single) and its flag tells whether that pair is completed |
| Projection.UnfinishedTasks | script.js:2351-2375 | unfinished tasks are exactly the single tasks without a record on their day, sorted by date |
| Projection.FirstRecordOn | script.js:2386-2388 | the first record of the task on the day is found exactly when that pair is completed |
| Projection.CompletedSingleTasks | script.js:2378-2407 | completed tasks are exactly the single tasks with a record on their day, latest completion first |
| Projection.UnfinishedCompletedPartition | script.js:2351-2407 | the unfinished and the completed lists together are the single-task list as a multiset |
| Projection.GroupByDay | script.js:2233-2248 | overdue, today and upcoming hold exactly the tasks before, on and after today, and together they hold every task once |
| Stats.Streak | script.js:1262-1279 | the streak n (at most 365) counts the days back from today with a positive counter, and the n-th day back is not positive |
| Stats.StreakUnique | script.js:1262-1279 | any count with the properties of the streak is the streak |
| Stats.CountStreak | script.js:1266-1276 | the loop returns the streak count, characterised as above |
| Stats.StreakMonotone | script.js:1262-1279 | more days with positive counters never shorten the streak |
| Stats.Bump | script.js:1208-1216 | an increment of a missing counter starts it at 0; only that counter changes, by one |
| Stats.BumpTodayExtendsStreak | script.js:1207-1221 | after today's counter is increased, the streak is at least 1 and does not shrink |
| Stats.MergeCounts | script.js:934-952 | merged counters are the sums on the guest's keys and the user's values elsewhere |
| Stats.MergeSelfDoubles | script.js:934-952 | merging a counter map into itself keeps its keys and doubles every counter |
| Stats.MergeCountsTwice | script.js:927-953 | for all counter maps, merging the same guest counters twice adds each guest counter twice, so a second merge changes the result whenever some guest counter is not zero |
| Stats.MergeKeepsStreak | script.js:934-941 | adding non-negative guest counters never shortens the streak |
| Stats.WeekStart | script.js:1284-1285 | the week starts on the Sunday on or before today |
| Stats.WeekTotals | script.js:1290-1298 | the week's completed occurrences never exceed its occurrences |
| Stats.RoundedPercent | script.js:1300 | `Math.round(c/t·100)` rounds half up: between 0 and 100 when c ≤ t, 100 when all are done, 0 when none |
| Stats.WeeklyRate | script.js:1282-1301 | the rate lies between 0 and 100, is 0 for an empty week and 100 when every occurrence of the week is completed |
| Stats.WeekCounts | script.js:1287-1298 | the loop returns the week's totals |
| Stats.DaysOf | script.js:1783-1789 | the set of days on which a task has a record |
| Stats.DaysAtMostRecords | script.js:1798-1803 | a task's count of completed days never exceeds its number of records |
| Stats.ValueSumOnlyOwn | script.js:1792-1796 | a task's total value depends only on its own records |
| Stats.ValueSumAtLeastCount | script.js:1792-1796 | when every record counts for at least 1 (`actualValue \|\| 1` is at least 1), a task's total is at least its number of records |
| Stats.FractionalValuesBelowCount | script.js:1792-1796 | completion values are fractions in general: two records of 0.5 give a total of 1 for two records, so the bound above needs values of at least 1 |
| Stats.Rebuild | script.js:1766-1806 | the rebuild keeps the set of entries and sets each one's completed days and total value from the records |
| Stats.RebuildIdempotent | script.js:1766-1806 | rebuilding twice is rebuilding once |
| Stats.RebuildIgnoresUnknown | script.js:1792-1803 | a record of a task without an entry changes no entry |
| Stats.Seed | script.js:645-662 | every daily task gets an entry, existing entries are kept and new ones start at zero |
| Stats.Credit | script.js:1254-1258 | one completion adds its value to the total and adds one completed day exactly when it is a new day; name, dimension and unit are kept |
| Stats.UpdateTaskStat | script.js:1229-1259 | nothing changes for a task that is not a daily task; otherwise only that task's entry changes, created if missing and then credited |
| Stats.FirstOfTheDay | script.js:1249-1254 | after a record is appended, its task has exactly one record on its day exactly when it had none before |
| Stats.ConsistentIsFixpoint | script.js:1766-1806 | per-task entries agree with the records exactly when a rebuild leaves them as they are, and a rebuild always agrees |
| Stats.RebuildAppendOwn | script.js:1792-1803 | rebuilding after one more record of a task credits that task's entry once |
| Stats.IncrementalMatchesRebuild | script.js:1229-1259 | for a record dated today, the incremental update equals a full rebuild |
| Stats.IncrementalUsesToday | script.js:1248-1256 | the incremental update looks at today's records whatever the record's own day |
| Stats.PageCount | script.js:1404 | `Math.ceil(n / 4)` pages |
| Stats.SlidePage | script.js:1402-1412 | the page moves by the direction and wraps around at both ends |
| Stats.SlideBackAndForth | script.js:1402-1412 | sliding forward then back, or back then forward, returns to the same page |
| Effects.UserPrefix | script.js:209 | a user's namespace starts with 'u' and ends with '_', six characters longer than the uid, so it never starts with "guest_" |
| Effects.Save | script.js:752-756 | a save writes the value under the session prefix plus the key and changes nothing else |
| Effects.Window | script.js:1148-1157 | the projection has an entry for exactly the days of the window |
| Manager.MergeInto | script.js:890-912 | the loop of pushes computes the merge by id |
| Manager.AddCounts | script.js:934-952 | the loop over guest keys computes the merged counters |
| Manager.ProjectDay | script.js:1156-1181 | the two loops for one day build that day's occurrences |
| Manager.Project | script.js:1148-1183 | the loop over days builds the projection window |
| Manager.WindowGrows | script.js:1155-1182 | extending the window by one day adds that day's occurrences and keeps the rest |
| Manager.CollectDays | script.js:1783-1789 | the grouped day sets are each task's set of completion days |
| Manager.SumValues | script.js:1777-1796 | every entry is reset and then summed over its records |
| Manager.SetDayCounts | script.js:1799-1803 | each entry with a day set gets its size as completed days |
| Manager.RebuildStats | script.js:1766-1806 | the three loops compute the rebuild |
| Manager.SeedStats | script.js:646-661 | the loop computes the seeded entries |
| Manager.ReclassifyLists | script.js:957-985 | the moves compute the reclassification and report a move exactly when the lists were not separated |
| Manager.MisfiledFound | script.js:961-975 | some task was misfiled exactly when the lists were not separated |
| Manager.PushAll | script.js:965-967 | pushing one list onto another concatenates them |
| Manager.TaskManager.constructor | script.js:595-642 | the constructor and init load the guest data, seed and rebuild, project and display |
| Manager.TaskManager.SaveData | script.js:752-756 | saveData writes one prefixed key |
| Manager.TaskManager.LoadLocal | script.js:787-790 | the four values are read from local storage or fall back to empty ones |
| Manager.TaskManager.GenerateFutureTasks | script.js:1148-1183 | generateFutureTasks replaces the projection with the window's |
| Manager.TaskManager.UpdateAllDisplays | script.js:1306-1317 | the home panel resets the completed total to the number of records and saves it |
| Manager.TaskManager.RecalculateDailyTaskStats | script.js:1766-1806 | the per-task entries are rebuilt and saved |
| Manager.TaskManager.InitializeDailyTaskStats | script.js:645-665 | entries are seeded for daily tasks, then rebuilt |
| Manager.TaskManager.CleanupTaskClassification | script.js:957-991 | lists are reclassified, and saved only when a task moved |
| Manager.TaskManager.AddTask | script.js:1047-1072 | the task is appended to the list of its kind, saved, projected and displayed |
| Manager.TaskManager.DeleteTask | script.js:1075-1108 | the deletion runs with its cascade and refresh |
| Manager.TaskManager.UpdateDailyTaskStats | script.js:1229-1259 | only the per-task entries change, as the incremental update says |
| Manager.TaskManager.CalculateStreakDays | script.js:1262-1279 | only the streak field changes, to the streak |
| Manager.TaskManager.CalculateWeeklyCompletionRate | script.js:1282-1301 | only the rate field changes, to the weekly rate |
| Manager.TaskManager.UpdateStatistics | script.js:1204-1226 | the counters, per-task entry, streak, rate and date change, and the statistics are saved |
| Manager.TaskManager.CompleteTask | script.js:1111-1145 | the timer is started if idle, the record appended and saved, and the statistics updated |
| Manager.TaskManager.ToggleTaskCompletion | script.js:1745-1763 | the records of a completed pair are removed, and the rest is rebuilt and refreshed |
| Manager.TaskManager.DeleteCompletionRecord | script.js:2625-2639 | the first record with the id is removed, and the rest is rebuilt and refreshed |
| Manager.TaskManager.SlideDailyStats | script.js:1402-1412 | only the page changes |
| Manager.TaskManager.MergeStatistics | script.js:927-953 | the total and both counter maps are summed |
| Manager.TaskManager.SaveAllData | script.js:995-1005 | the four values are saved, then projected, seeded and rebuilt |
| Manager.TaskManager.MergeGuestLists | script.js:889-911 | each of the three lists becomes the id-keyed union of the current and the guest list |
| Manager.TaskManager.MergeGuestData | script.js:882-925 | the guest lists are merged by id, the statistics merged and everything saved |
| Manager.TaskManager.LoadFromFirestore | script.js:810-850 | a document replaces the data, no document keeps it, and a failure reads local storage |
| Manager.TaskManager.LoadAllData | script.js:781-807 | the load is followed by cleanup, projection, seeding and the timer read |
| Manager.OnUserSignedIn | script.js:195-218 | the guest snapshot is taken, the namespace switched, the data loaded, merged and displayed |
| Manager.OnUserSignedOut | script.js:225-233 | the handler switches to the guest namespace, loads local data and displays |
| Properties.Refreshed | script.js:1148-1317 | regenerating and displaying keeps the lists and the records, sets the total to the number of records and the projection to the window |
| Properties.RemovalRebuilds | script.js:1750-1761 | after a removal of records the per-task entries agree with the remaining records and the total is their number |
| Properties.SaveConfined | script.js:752-756 | a save writes only within the session's namespace |
| Properties.DisplayedConfined | script.js:1314-1317 | updating the displays writes only within the namespace |
| Properties.InitializedConfined | script.js:645-665 | seeding and rebuilding write only within the namespace |
| Properties.CleanedConfined | script.js:957-991 | cleanup writes only within the namespace |
| Properties.LoadedAllConfined | script.js:781-807 | loading writes only within the namespace |
| Properties.SavedAllConfined | script.js:995-1005 | saving everything writes only within the namespace |
| Properties.GuestMergedConfined | script.js:882-925 | the guest merge writes only within the namespace |
| Properties.SignInKeepsOtherNamespaces | script.js:195-218 | signing in changes no storage key outside the user's namespace |
| Properties.GuestKeysSurviveSignIn | script.js:195-218 | every guest key is left untouched by signing in |
| Properties.CleanupSeparates | script.js:957-991 | after cleanup the lists are separated, tasks of known kinds are kept with their counts, nothing changes exactly when the lists were separated, and a second cleanup does nothing |
| Properties.DeleteCascades | script.js:1075-1108 | deleting removes exactly the task and all its records, keeps everything else with its count, drops a daily task's entry, and leaves the other list alone |
| TaskStore.WithoutTaskCount | script.js:1078 | deleting by id removes every copy of the task and keeps every other task with its count |
| TaskStore.WithoutRecordsCount | script.js:1082 | the cascade removes every record of the task and keeps every other record with its count |
| Properties.DeleteDailyKeeps | script.js:1076-1077 | a non-permanent delete of a daily task changes no task, record or entry |
| Properties.DeleteUnknownKeeps | script.js:1075-1108 | deleting an unknown id changes no list or record; only a permanent daily delete drops a stale per-task entry of that id |
| Properties.DeleteCascadeFrame | script.js:1075-1104 | the affected list and the records are filtered by id (so the kept ones stay in order), the other list is untouched, and only the permanent daily branch drops the per-task entry |
| Properties.AddRoutesByKind | script.js:1047-1072 | the new task, with target defaulted to 1, goes on the daily list exactly when its kind is 'daily', the records and entries are kept, and it is projected onto its due days |
| Properties.CompletionAppendsOne | script.js:1111-1145 | completion appends one record with the task's value, starts the timer only when it was idle, and raises today's counter and the kind's counter by one |
| Properties.CompletionCounters | script.js:1204-1226 | today's counter and the kind's counter rise by one, other days are kept, and the streak is at least 1 |
| Properties.CompletionKeepsConsistent | script.js:1111-1145 | completing a daily task today keeps its per-task entries in agreement with the records |
| Properties.ToggleRemovesPair | script.js:1745-1763 | toggling removes exactly the records of the pair, does nothing for an uncompleted pair, and leaves the entries in agreement with the records |
| Properties.RecordDeletionRemovesOne | script.js:2625-2639 | an unknown id changes nothing; otherwise exactly the first record with the id goes and the entries are rebuilt |
| Properties.Reinitialized | script.js:1003-1004 | regenerating and re-seeding keeps the lists and records and leaves entries for every daily task in agreement with the records |
| Properties.SavedAllKeeps | script.js:995-1005 | saving everything keeps the lists and records and leaves the entries in agreement |
| Properties.GuestMergeUnion | script.js:882-953 | an empty guest changes nothing; otherwise each list is the union by id, the totals and counters are summed, and the entries agree with the records |
| Properties.GuestMergeTwice | script.js:882-953 | merging the same guest data twice keeps the lists of the first merge but adds the total again |
| Properties.LoadLeavesDataClean | script.js:781-807 | after any load (cloud document, no document, failure, or local) the lists are separated, the records are the ones that load read, every daily task has an entry in agreement with the records, the projection spans the window, and the timer's start is the one stored under the prefix |
| Properties.CleanedKeeps | script.js:957-991 | cleanup keeps the records and the statistics |
| Properties.FirstSignInCountsTwice | script.js:195-218 | signing in with no cloud document keeps the records, doubles every day's and every kind's counter, and resets the total to the number of records |
| Properties.NoDocKeepsCounters | script.js:836-839 | a load without a cloud document keeps the counters |
| Properties.LocalLoadCongruent | script.js:786-806 | two stores that agree under the prefix load and display the same data |
| Properties.SignOutAfterSignIn | script.js:225-233 | signing out after a sign-in shows the same lists, statistics, projection and timer as signing out directly |

## Left out

- Rendering is not modelled: the DOM, notifications, animations, confetti, charts and the modal dialogs. Only each display update's effect on the data is kept.
- Cloud writes are left out. This covers `saveToFirestore`, the cloud write inside `saveData`, and `initializeUserInFirestore`. The cloud's answer to a read is a parameter, and Firebase is not part of this model.
- Asynchrony is not modelled. Each `await` runs to completion in source order, and concurrent callbacks are not considered.
- Time of day and calendar arithmetic are left out:
  - Projection.ActiveOn: `shouldTaskBeActiveOnDate` compares the projected day, a timestamp at the current time of day, with the UTC midnight of `endDate`. `formatDate` labels that day by its UTC date. So the source drops a daily task on the day its `endDate` names, and the model makes the end day exclusive. It does not model the one instant, exactly 00:00:00.000 UTC, at which the source would still include it.
  - Projection.StartOf: a task without a `startDate` starts at its `createdDate` timestamp. On the creation day, the source shows it only when the current time of day is not earlier than the creation time. The model shows it on the whole creation day.
  - The "three months ahead" end of the window is the parameter `lastDay`.
  - Week days count from 1970-01-01, a Thursday, in local time.
  - Time zones are not modelled.
- Stats.WeeklyRate: its own contract states the range and the empty and all-done cases; the exact rounding of completed over total is the contract of `Stats.RoundedPercent`, which it applies to `Stats.WeekTotals`.
- Record.actualValue: completion values are `parseFloat` numbers, modelled as exact `real` numbers. The floating-point rounding of the sums in `totalValue` is not modelled. A `NaN` from `parseFloat` is falsy and is modelled as a missing custom value.
- `Math.round` on floating point is modelled by exact integer rounding half up. The float error of `c/t*100` is not modelled.
- Auth.UpperChar: upper-cases ASCII letters only. Locale-aware and non-ASCII case mapping of `toUpperCase` are not modelled.
- Strings are sequences of characters. Surrogate pairs of UTF-16 are not modelled.
- Stats.Rebuild: the back-fill of missing record ids in `recalculateDailyTaskStats` (lines 1770-1774) is not modelled. Every record in the model has an id.
- A missing `dailyTaskStats` object is an empty map. So the early return of `recalculateDailyTaskStats` and the save it skips are not modelled. Every caller seeds the map first, so this affects only stored statistics without the field.
- `startPersistTimer` and its one-second interval are not modelled. `Timer.TimerText` models what each tick displays, and a start time is a number of milliseconds (the NaN of an unparsable start is not modelled).
- `generateId` and the clock are parameters.
- `updateLanguage`, `toggleLanguage`, `initLanguage` and the translation tables themselves are left out. `I18n.GetText` takes the current language's table as a parameter.
- `checkInternationalization` is left out: it scans the page's text with regular expressions.
- `Projection.CompletedSingleTasks` sorts by the completion time of the first matching record. A task with no record sorts as time 0, and that branch cannot happen for a completed task.
- `Projection.UnfinishedTasks` treats a single task without a date as day 0. The source compares `Invalid Date` values there, so its order for such tasks is unspecified.
- Persisting tasks and records as JSON is not modelled. The stored value is the datatype itself, so a load returns exactly what was saved.

## Findings

| source | as written | input that shows it | evidently intended | confidence | as-written member | corrected member |
|---|---|---|---|---|---|---|
| script.js:181-192 | `name.trim().split(' ')` keeps the empty piece between two spaces, and `words[1][0]` of it is `undefined`, which the concatenation turns into the text "undefined" | the name "a  b" (two spaces) gives "AUNDEFINED" | the initials of the first two non-empty words, "AB" (`Auth.DoubleSpaceCorrected`) | not executed | Auth.DoubleSpaceGivesUndefined | Auth.ExtractInitials |
