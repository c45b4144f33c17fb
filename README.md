# Duty-roster bot: a verified model of its scheduling core

The system is a Telegram bot for a military-school course. It keeps the duty roster:
- who is on course duty ("к"), on the rapid-reaction group ("гбр") or in the canteen ("с") on which day;
- per-group monthly schedules;
- registration data, personal reminders and a link to the college timetable site.

This project models the logic at the core of the bot and proves what that logic promises.

- **Daily duty distributor** (`DutyDistributor`, handlers/duty_distributor.py).
  - Between 15:30 and 15:35 it takes each enrollment year with duties today.
  - It splits the "к" and "гбр" rosters into numbered shifts, using a shuffled order.
  - It spreads the canteen roster over six canteen objects. People are ordered by a fairness score; objects are ordered heaviest first and dealt out round-robin.
  - Each (date, role, year) is handled at most once. Every assignment appends a row to the history log.
  - The tables are a `Tables` value: two assignment maps and the history sequence. The class `Distributor` holds them as fields. Its methods run the source's loops and are proved equal to the pure functions `StepShifts`, `StepCanteen`, `RunYear`, `RunYears` and `RunDay`. The lemmas about those functions carry the properties.
- **Schedule queries** (`Schedule`, utils/schedule.py):
  - a user's duties with their partners;
  - everyone on duty on a date, in one list or per group;
  - the paged list of people;
  - a user's or a role's duties in a month;
  - the women's-schedule test.
- **Schedule storage** (`Storage`, utils/storage.py):
  - the record clean-up applied on save and on load;
  - the month key derived from a schedule;
  - one user's sorted duty list.
- **Manual schedule edits** (`EditSchedule`, handlers/edit_schedule.py):
  - the editor permission check;
  - the role button check;
  - the record a deletion is confirmed for;
  - the add/delete rewrite of one group's list, and the refresh of the bot's cached copy of the current month.
- **Date input** (`DateParser`, utils/date_parser.py): "15", "15 12" and "15.12.2025" as ISO dates.
- **Course arithmetic** (`CourseCalculator`, utils/course_calculator.py): the current course with its 15 August step, the course summary, the academic-year label and the course caption.
- **Registration** (`Registration`, handlers/registration.py):
  - the enrollment years open for registration;
  - the year and group keyboards, and the callback data they carry;
  - the custom group-name and full-name checks.
- **Task reminders** (`Tasks`, handlers/tasks.py): the "DD HH:MM" input, the deadline with its month rollover, and the table rows written when a reminder is set or edited.
- **Timetable-site helpers** (`Apex`, apex_parser.py): URL joining, group-label clean-up and group lookup.

`Strings`, `Sorting` and `Dates` give Python's own semantics where the code relies on them:
- `str.strip`/`split`/`lower`/`replace`/`isdigit`;
- str comparison;
- the stable `sorted(key=...)` and list comprehensions;
- `datetime.date`, `strptime`/`strftime` for `%Y-%m-%d`, and date subtraction.

Every clock reading becomes a parameter: `now`, `today` or `ref`. `random.shuffle` becomes a function parameter; the lemmas that need it to be a permutation require `IsShuffle`. A Python dict is a sequence of (key, value) pairs in insertion order, wherever the code iterates over one.

The code is followed where it and the usual description differ:
- In the "к" split, only the first three shuffled people get shifts 1, 2 and 3. Everyone after them gets shift 0.
- For any role other than "к" and "гбр", no shift is assigned.
- `get_course_info` calls a course "выпускник" from course 5 on. Its `next` is `выпуск` from course 4 on.
- The docstring of `_normalize_group_label` (apex_parser.py:189) promises a capitalised first letter. The code does not capitalise, and the model does not either.

## Model

| member | source | states |
|---|---|---|
| DutyDistributor.Distributor.AutoDistribute | handlers/duty_distributor.py:20-26 | Outside 15:30–15:35 no table changes. Inside it, the tables become exactly one day's run for today's date, written YYYY-MM-DD. |
| DutyDistributor.Distributor.DistributeYears | handlers/duty_distributor.py:32-37 | Processing the years with duties today, in order, gives the day's run over those years. |
| DutyDistributor.Distributor.DistributeYear | handlers/duty_distributor.py:39-147 | One year is processed as "к", then "гбр", then the canteen. |
| DutyDistributor.Distributor.DistributeShifts | handlers/duty_distributor.py:40-75 | One shift role for one year: skipped if an assignment exists or the roster is empty. Otherwise the shuffled roster is assigned and written. |
| DutyDistributor.Distributor.BuildAssignments | handlers/duty_distributor.py:56-64 | The two enumerate loops build exactly the shift assignment of the role (empty for other roles). |
| DutyDistributor.Distributor.WriteShiftRows | handlers/duty_distributor.py:66-74 | Each assignment is written to the shift table and appended to the history, in order. |
| DutyDistributor.Distributor.DistributeCanteen | handlers/duty_distributor.py:78-147 | The canteen for one year: skipped if an assignment exists or nobody is rostered. Otherwise people sorted by score get objects sorted by weight, round-robin. |
| DutyDistributor.Distributor.ComputeScores | handlers/duty_distributor.py:94-122 | The score dict has exactly the rostered names as keys, each with that person's fairness score. |
| DutyDistributor.Distributor.WriteCanteenRows | handlers/duty_distributor.py:137-146 | Person i of the sorted list gets object i mod 6. Each pair is written to the canteen table and appended to the history. |
| DutyDistributor.Assign | handlers/duty_distributor.py:56-64 | "к" and "гбр" give one assignment per rostered person. Any other role gives none. |
| DutyDistributor.AssignNames | handlers/duty_distributor.py:58-64 | For "к" and "гбр", the assignments name the given (shuffled) people, once each and in that order. |
| DutyDistributor.AssignShifts | handlers/duty_distributor.py:57-64 | The shift numbers are the course sequence for "к" and the pairwise sequence for "гбр". |
| DutyDistributor.CourseShiftCounts | handlers/duty_distributor.py:57-60 | Exactly max(0, N−3) people get shift 0. Shifts 1, 2 and 3 are each used once when N reaches them. No other shift occurs. |
| DutyDistributor.GbrShiftCounts | handlers/duty_distributor.py:61-64 | Each shift holds at most two people. The shifts used are exactly 1..⌈N/2⌉. The last one holds one person when N is odd. |
| DutyDistributor.RecentSubObjectsFrom | handlers/duty_distributor.py:100-105 | Every recent sub-object is non-empty. It comes from a canteen history row of that person and year. |
| DutyDistributor.RecentSubObjects | handlers/duty_distributor.py:100-105 | At most five recent sub-objects are returned, the size of the history query's LIMIT. |
| DutyDistributor.LatestCanteenRows | handlers/duty_distributor.py:100-104 | At most five rows are looked at (`LIMIT 5`). |
| DutyDistributor.CutAfterFive | handlers/duty_distributor.py:103 | Keeping the first five rows of a newest-first list leaves them newest first, and no row dropped is later than the fifth. |
| DutyDistributor.CanteenRowsByDateSpec | handlers/duty_distributor.py:100-103 | The rows sorted by `date DESC` are a reordering of the person's canteen rows of that year, newest first. |
| DutyDistributor.LatestCanteenRowsSpec | handlers/duty_distributor.py:100-104 | The rows looked at are min(5, n) of the person's n canteen rows of that year, taken from them (all of them when n ≤ 5), newest first; no row left out is later than the last one kept. |
| DutyDistributor.StreakPenalty | handlers/duty_distributor.py:98-122 | The rows with a non-empty sub-object are exactly those of the rows looked at that have one, newest first. The score is 0.5·global score (0 when missing) + 5 exactly when there are at least two of them and the two latest are both heavy canteen objects. Heavy means weight ≥ 12, and a missing weight counts as 10. |
| DutyDistributor.NoHistoryNoPenalty | handlers/duty_distributor.py:107-122 | Without canteen history the score is half the global score. |
| DutyDistributor.ObjectsByWeightOrder | handlers/duty_distributor.py:126-135 | The sorted objects are a permutation of the six canteen objects, with weights non-increasing. |
| DutyDistributor.HeaviestFirst | handlers/duty_distributor.py:135 | The first sorted object is at least as heavy as every canteen object. |
| DutyDistributor.ByScoreOrder | handlers/duty_distributor.py:124 | The sorted names are a permutation of the roster, with scores non-decreasing. |
| DutyDistributor.LowestGetsHeaviest | handlers/duty_distributor.py:124-138 | The first person of the plan has the lowest score and gets the heaviest object. |
| DutyDistributor.RoundRobinPeople | handlers/duty_distributor.py:137-138 | The round-robin plan lists exactly the sorted names, in order. |
| DutyDistributor.RoundRobinCovers | handlers/duty_distributor.py:137-138 | With at least six people, every object of the list is dealt to someone. |
| DutyDistributor.EveryObjectUsed | handlers/duty_distributor.py:124-138 | With at least six canteen people, every canteen object is assigned. |
| DutyDistributor.WriteShiftsHistory | handlers/duty_distributor.py:66-74 | Shift writes leave the canteen table alone. They extend the history by one row per assignment, in order, and keep the old rows. |
| DutyDistributor.WriteShiftsKeys | handlers/duty_distributor.py:67-70 | No shift key is removed. New keys are for this date, role and year. Every assigned person has a key. |
| DutyDistributor.WriteCanteenHistory | handlers/duty_distributor.py:139-146 | Canteen writes leave the shift table alone. They extend the history by one "с" row per assignment, in order. |
| DutyDistributor.WriteCanteenKeys | handlers/duty_distributor.py:139-142 | No canteen key is removed. New keys are for this date and year. Every assigned person has a key. |
| DutyDistributor.WriteCanteenNames | handlers/duty_distributor.py:137-146 | The new history rows name the plan's people, in plan order. |
| DutyDistributor.StepShiftsRows | handlers/duty_distributor.py:47-74 | A role not yet distributed gets exactly one history row per rostered person: the multiset of names equals the roster. |
| DutyDistributor.StepCanteenRows | handlers/duty_distributor.py:85-146 | A canteen not yet distributed gets exactly one history row per rostered person. |
| DutyDistributor.StepShiftsCovers | handlers/duty_distributor.py:40-74 | After the step the role has an assignment, or nobody was rostered. |
| DutyDistributor.StepCanteenCovers | handlers/duty_distributor.py:78-146 | After the step the canteen has an assignment, or nobody was rostered. |
| DutyDistributor.StepShiftsOnce | handlers/duty_distributor.py:40-45 | The existence guard makes a second shift step change nothing. |
| DutyDistributor.StepCanteenOnce | handlers/duty_distributor.py:78-83 | The existence guard makes a second canteen step change nothing. |
| DutyDistributor.StepShiftsGrows | handlers/duty_distributor.py:40-75 | A shift step only appends history rows for today with role "к" or "гбр". It removes no assignment and adds keys only for today. |
| DutyDistributor.StepCanteenGrows | handlers/duty_distributor.py:78-147 | A canteen step only appends "с" rows for today. It removes no assignment and adds keys only for today. |
| DutyDistributor.RunRolesShiftRoles | handlers/duty_distributor.py:39 | The shift roles are handled "к" first, then "гбр". |
| DutyDistributor.RunRolesGrows | handlers/duty_distributor.py:39-75 | Running the shift roles keeps the history append-only and the tables growing. |
| DutyDistributor.RunYearGrows | handlers/duty_distributor.py:39-147 | A year's run keeps the history append-only, with only roles "к", "гбр" and "с" in new rows. |
| DutyDistributor.RunYearsGrows | handlers/duty_distributor.py:36-147 | Processing all years keeps the history append-only and never distributes another role. |
| DutyDistributor.RunDayGrows | handlers/duty_distributor.py:20-147 | A day's run never rewrites history and never removes an assignment. New rows and keys are all for today, with roles "к", "гбр" and "с" only. |
| DutyDistributor.RunYearCovers | handlers/duty_distributor.py:39-147 | After a year's run, both shift roles and the canteen of that year are distributed or have nobody rostered. |
| DutyDistributor.RunYearsCovers | handlers/duty_distributor.py:36-147 | After the run, every processed year is covered. |
| DutyDistributor.CoveredRunYears | handlers/duty_distributor.py:36-83 | When every year is already covered, the run changes nothing. |
| DutyDistributor.RunDayOnce | handlers/duty_distributor.py:20-153 | Running the distribution twice on one day gives the same tables as running it once. |
| Schedule.SurnameAsCode | utils/schedule.py:71 | The surname is the lower-cased first word of the stripped fio. It is missing (IndexError) exactly when the stripped fio is empty. Stripping first changes nothing. |
| Schedule.SortByDate | utils/schedule.py:87 | Sorting by date keeps every record, as often as it occurs. |
| Schedule.SortByDateSorted | utils/schedule.py:87 | Sorting by date puts the dates in ascending order. |
| Schedule.DutyByDate | utils/schedule.py:125-127 | A record is returned iff it is in the input and has the target date. Empty input gives []. |
| Schedule.DutyByDateCount | utils/schedule.py:127 | Each record on the date is returned as often as it occurs; others never. |
| Schedule.DutyByDateAppend | utils/schedule.py:127 | The query distributes over concatenation, so the input order is kept. |
| Schedule.PartnerNames | utils/schedule.py:99-109 | Every partner has a surname that differs from the user's. Every record with the same date and role and another surname is listed, and every name listed is the fio of such a record. |
| Schedule.PartnerNamesInOrder | utils/schedule.py:99-109 | The partner list is exactly the fios of the partner records, in the order of the records. |
| Schedule.FindPartners | utils/schedule.py:100-109 | The partner loop gives the partner list, or the KeyError a record without date or role raises. |
| Schedule.Views | utils/schedule.py:91-115 | Rows are made exactly for the duties whose date parses, in order. Each row marks the duty past iff it is before today, and carries that duty's partners. |
| Schedule.MyDutiesWithPartners | utils/schedule.py:62-117 | The query loops compute the model's result, errors included. |
| Schedule.SelectMine | utils/schedule.py:74-81 | The records selected are exactly those with the user's surname, in order. |
| Schedule.BuildViews | utils/schedule.py:91-115 | The outer loop builds the rows of the sorted duties. |
| Schedule.MyDutiesOnlyMine | utils/schedule.py:62-117 | Every returned duty is the user's own (same surname) and comes from the input. Dates are ascending. No partner has the user's surname. |
| Schedule.MyDutiesComplete | utils/schedule.py:74-95 | Every record of the user with a parseable date is returned. |
| Schedule.FioNames | utils/schedule.py:139 | Every non-empty fio of the schedule is collected; nothing empty is. |
| Schedule.Dedup | utils/schedule.py:139 | Duplicates are removed and the same elements are kept. |
| Schedule.FiosSortedSet | utils/schedule.py:139 | The names are distinct and strictly ascending. They are exactly the non-empty fios. |
| Schedule.PageCount | utils/schedule.py:140 | The page count is the ceiling of names / per page. |
| Schedule.FullPages | utils/schedule.py:135-154 | Empty input gives ([], 0, 1). Otherwise current = page and total = ⌈names / per page⌉, and the entries name the page's slice of the sorted names. |
| Schedule.FullPagesEntries | utils/schedule.py:146-148 | Each entry's duties are exactly the records carrying that fio. |
| Schedule.FullSchedulePages | utils/schedule.py:130-154 | The pagination code computes the model's pages. |
| Schedule.PageEntries | utils/schedule.py:145-148 | One entry per name of the page, in order. |
| Schedule.OnExactlyOnePage | utils/schedule.py:141-143 | Name k is on page p iff p = k div per-page, so it is on exactly one page. |
| Schedule.NamePageInRange | utils/schedule.py:140-143 | That page is one of pages 0..total−1. |
| Schedule.MonthsOnDate | utils/schedule.py:212-213 | Every record collected for a group is on the date. |
| Schedule.MonthsOnDateEmpty | utils/schedule.py:213-214 | Nothing is collected iff no month of the group has a record on the date. |
| Schedule.AllGroupsOnDate | utils/schedule.py:209-217 | Every group in the result has a non-empty list of records on the date. |
| Schedule.AllGroupsKeyIff | utils/schedule.py:209-217 | The result has a key for a group iff some month of that group has a record on the date. |
| Schedule.DutyByDateAllGroups | utils/schedule.py:205-218 | The nested loops compute the per-group result. |
| Schedule.GroupOnDate | utils/schedule.py:212-217 | The month loop of one group collects its records on the date. |
| Schedule.UserMonth | utils/schedule.py:221-233 | The month's records with the user's surname, over all groups, each kept as often as it occurs, sorted by date. |
| Schedule.DutiesForUserInMonth | utils/schedule.py:221-233 | The loops compute that result, or the IndexError of a blank fio. |
| Schedule.UserRowsOfMonth | utils/schedule.py:228-232 | One month list succeeds iff every record has a word in its fio. It then gives exactly the user's records. |
| Schedule.RoleMonth | utils/schedule.py:236-247 | The month's records whose role equals the stripped, lower-cased role, over all groups, sorted by date. |
| Schedule.DutiesByRoleInMonth | utils/schedule.py:236-247 | The loops compute that result. |
| Schedule.RoleRowsOfMonth | utils/schedule.py:243-246 | One month list gives exactly its records with the role. |
| Schedule.IsFemale | utils/schedule.py:250-260 | Empty gives false. Otherwise true iff the first record's lower-cased group contains a keyword or its gender is "female". |
| Schedule.IsFemaleKeywords | utils/schedule.py:258 | The keyword "ж" subsumes "жен". |
| Sorting.SortBySorted | utils/schedule.py:233 | `sorted(key=...)` gives keys in ascending order. |
| Sorting.SortByPermutation | utils/schedule.py:233 | `sorted(key=...)` is a permutation of its input. |
| Sorting.SortByStable | utils/schedule.py:233 | `sorted(key=...)` keeps records with equal keys in input order. |
| Storage.GetCleanFields | utils/storage.py:53-59 | On save, role is stripped and lower-cased when it is a string. fio, date, group_name, group and gender become `str(v)`, with falsy values as "". Every other field is copied. |
| Storage.CleanFieldsKeys | utils/storage.py:52-59 | Cleaning keeps the record's keys, in their order. |
| Storage.UserIdFixFacts | utils/storage.py:61-67 | user_id is taken from user_id when present, else from telegram_id. It is always a stripped string. |
| Storage.SaveItemField | utils/storage.py:52-69 | A saved record's fields other than user_id are the cleaned fields of the input. |
| Storage.SaveItemUserId | utils/storage.py:61-67 | A saved record has user_id iff the input had user_id or telegram_id. Its value is the stripped string of the one used. |
| Storage.SavedUserIdStripped | utils/storage.py:66-67 | A saved user_id is a string that is its own strip. |
| Storage.SaveItemsComprehension | utils/storage.py:50-69 | Of a month list, the non-dict items are dropped and the rest are cleaned, in order. |
| Storage.SaveAllHas | utils/storage.py:46-72 | A month key is saved iff some month with that stripped key holds a list. |
| Storage.SaveAllMonth | utils/storage.py:46-70 | The list saved under a key is the cleaned list of the last list month with that stripped key. |
| Storage.SaveAllSchedules | utils/storage.py:44-72 | The save loops compute the model's cleaned schedules. |
| Storage.SaveMonth | utils/storage.py:49-70 | The item loop computes the cleaned month list. |
| Storage.CleanItem | utils/storage.py:52-67 | The field loop computes the cleaned record. |
| Storage.LoadItemField | utils/storage.py:136-156 | On load: role is stripped and lower-cased; group moves to group_name when that is absent; gender defaults to "male"; every other field other than user_id is kept. |
| Storage.GetLoadRole | utils/storage.py:138-139 | Only the role changes in the role step. |
| Storage.GetLoadGroup | utils/storage.py:142-144 | group is renamed to group_name, and the old key deleted, exactly when group_name is absent. |
| Storage.GetLoadGender | utils/storage.py:147-148 | A missing gender becomes "male"; nothing else changes. |
| Storage.LoadItemShape | utils/storage.py:136-158 | A loaded record has fio, date and gender. It keeps group only beside group_name. It has user_id iff it had user_id or telegram_id. |
| Storage.LoadItemUserId | utils/storage.py:150-156 | user_id is present after load iff user_id or telegram_id was. It is the stripped string of the user_id, or else of the telegram_id. |
| Storage.LoadItemsComprehension | utils/storage.py:134-160 | Records that are not dicts with fio and date are dropped; the rest are fixed, in order. |
| Storage.LoadItemsShape | utils/storage.py:134-160 | Every loaded record has fio, date and gender. |
| Storage.LoadAllShape | utils/storage.py:124-163 | Every loaded month key is non-blank. Every loaded month is non-empty. Every record in it has fio, date and gender. |
| Storage.LoadAllSchedules | utils/storage.py:124-166 | The load loops compute the model's loaded schedules. |
| Storage.LoadMonth | utils/storage.py:134-161 | The item loop computes the loaded month list. |
| Storage.FixLoaded | utils/storage.py:136-156 | The in-place fixes compute the loaded record. |
| Storage.MonthYearFirst | utils/storage.py:188-200 | The first record whose date splits into a digit year and a digit month gives the key, with the month zero-filled to 2. None at all gives the current month. |
| Storage.MonthYearIsKey | utils/storage.py:188-200 | The result is always digits, '-', and at least two digits. |
| Storage.MonthOfDate | utils/storage.py:192-198 | A record dated YYYY-MM-DD gives the key YYYY-MM. |
| Storage.MonthOfIsKey | utils/storage.py:194-198 | Any key taken from a record has the month-key form. |
| Storage.Row | utils/storage.py:225-229 | A result row copies the record's date. It is past iff that date sorts before today's date string. |
| Storage.RowsOfMine | utils/storage.py:223-230 | There is one row per selected record, each that record's row. |
| Storage.ScheduleForUserSorted | utils/storage.py:216-234 | The result is sorted by date. It is a permutation of the rows of exactly the loaded records whose user_id is the stripped argument. |
| Storage.GetScheduleForUser | utils/storage.py:204-234 | The loops compute the user's schedule, or the error a malformed record raises. |
| Storage.UserRowsOfMonth | utils/storage.py:223-230 | One month's loop appends the rows of its records of the user. |
| EditSchedule.CanEditAllowed | handlers/edit_schedule.py:23-34 | Editing is allowed iff the editor entry exists and is non-empty, its role is admin, assistant or sergeant, and it has a group. It then returns that role and group. A missing or empty entry gives "access denied". |
| EditSchedule.ChosenRole | handlers/edit_schedule.py:253-256 | An accepted role is always a valid role. |
| EditSchedule.ChosenRoleOfButton | handlers/edit_schedule.py:231 | A role button's data gives back its role when that role is valid. Otherwise it is rejected. |
| EditSchedule.Matches | handlers/edit_schedule.py:294 | The fio-and-date test reads a record iff it has a fio (and a date when the fio matches). It holds iff both match. |
| EditSchedule.FirstEntryIsFirst | handlers/edit_schedule.py:292-297 | The record found is the first with that fio and date. "Not found" means no record matches. |
| EditSchedule.ConfirmDelete | handlers/edit_schedule.py:288-308 | The lookup gives the first matching record's role. It gives none when nothing matches, which ends the conversation. |
| EditSchedule.RemoveIsFilter | handlers/edit_schedule.py:342 | Delete keeps exactly the records without that fio and date, in order. It fails only when a record cannot be read. |
| EditSchedule.FilterKeepsAll | handlers/edit_schedule.py:343 | The list keeps its length iff nothing was removed. |
| EditSchedule.SetGroupFacts | handlers/edit_schedule.py:346 | Writing a group list changes only that group of that month. It needs the month to exist. |
| EditSchedule.DeleteResult | handlers/edit_schedule.py:340-355 | Delete fails iff a record is unreadable. It is "not found", saving nothing, iff no record matches. Otherwise only the edited group changes, to its filtered list. |
| EditSchedule.AddSucceeds | handlers/edit_schedule.py:356-362 | Add succeeds iff the records can be read and sorted and the month exists. It is never "not found". |
| EditSchedule.AddChanges | handlers/edit_schedule.py:357-362 | Add changes only the edited group. That group becomes the sorted list of the kept records plus the new one. |
| EditSchedule.AddedList | handlers/edit_schedule.py:358-361 | After add the list is sorted by date. It holds the new record, which is the only one with that fio and date. Every other record occurs as often as before. |
| EditSchedule.AddedCounts | handlers/edit_schedule.py:358-360 | The new record occurs exactly once, and every other record's count is unchanged. |
| EditSchedule.EntryIsNew | handlers/edit_schedule.py:358-360 | Any record with the edited fio and date is the new one. |
| EditSchedule.AddedListStable | handlers/edit_schedule.py:361 | Records with equal dates keep their order from before the sort. |
| EditSchedule.MonthDutiesHolds | handlers/edit_schedule.py:350-352 | Every record of every group of the month is in the flattened list. |
| EditSchedule.EditSession.ExecuteEdit | handlers/edit_schedule.py:335-371 | The schedules handed to `save_all_schedules` are the edited ones exactly when the edit is done. The cached list and schedules are replaced only when the edited month is the current one. |
| EditSchedule.EditSession.FlattenMonth | handlers/edit_schedule.py:350-352 | The extend loop concatenates the month's group lists. |
| DateParser.ParseDate | utils/date_parser.py:6-47 | Every result is a valid date, and blank input gives None. With a '.' a result is only the DD.MM.YYYY reading of the stripped text. Otherwise, with whitespace, it is only the base-year date of two numbers, day first. Otherwise it is only the bare-digit day of the base month and year. Anything else without '.' or ' ' that is not digits gives None. |
| DateParser.DottedAccepted | utils/date_parser.py:17-20 | Any DD.MM.YYYY text of an existing date, in strptime's field forms, gives that date. |
| DateParser.DayMonthAccepted | utils/date_parser.py:25-32 | Two numbers naming an existing day of the base year give that date. |
| DateParser.SpacedRejected | utils/date_parser.py:25-47 | Text with a space and no '.' that is not two numbers gives None. |
| DateParser.BareDayAccepted | utils/date_parser.py:37-44 | A bare number naming an existing day of the base month gives that date. |
| DateParser.ParseDateInput | utils/date_parser.py:14-47 | The result is a valid zero-padded YYYY-MM-DD that reads back as itself. It exists iff the date parses. |
| DateParser.DottedRoundTrip | utils/date_parser.py:17-20 | DD.MM.YYYY of a valid date parses to that date. |
| DateParser.DayMonthRoundTrip | utils/date_parser.py:25-32 | "d m" gives day d of month m in the base year when that is a date. |
| DateParser.DayMonthInvalid | utils/date_parser.py:30-34 | "d m" that is not a date in the base year gives None. |
| DateParser.BareDayRoundTrip | utils/date_parser.py:37-43 | str(d) for a day valid in the base month gives exactly that date. |
| DateParser.BareDayOutOfRange | utils/date_parser.py:39 | A bare number outside 1..31 gives None. |
| CourseCalculator.AcademicStart | utils/course_calculator.py:24-27 | The academic year is Y−1 iff the date is before 15 August of Y, else Y. |
| CourseCalculator.CurrentCourse | utils/course_calculator.py:30-39 | The course is academic year − enrollment + 1, raised to 1 when below, except that the 2021 cohort is held at 5 once it passes course 4. It is always ≥ 1. |
| CourseCalculator.CourseMonotone | utils/course_calculator.py:24-39 | A later date never gives a lower course. |
| CourseCalculator.CourseStepsOnAugust15 | utils/course_calculator.py:24-30 | From 14 to 15 August, the course goes up by one. |
| CourseCalculator.Cohort2021Held | utils/course_calculator.py:33-36 | On every date the 2021 cohort's course is at most 5, and it is 5 exactly from 15 August 2025 on. |
| CourseCalculator.CohortCounts | utils/course_calculator.py:22-39 | Any other cohort's course goes on counting: year − enrollment + 1 from 15 August of a year to 14 August of the next. |
| CourseCalculator.NextTransition | utils/course_calculator.py:47-52 | The next transition is the first 15 August strictly after today. |
| CourseCalculator.DaysUntilNext | utils/course_calculator.py:55 | The days to that transition are positive. |
| CourseCalculator.DaysUntilNextAsWritten | utils/course_calculator.py:49-55 | The count as written is never negative, because of the clamp at line 68. |
| CourseCalculator.DaysUntilNextAsWrittenWrong | utils/course_calculator.py:49-52 | On 2025-09-03 the count as written is 0, although the next 15 August is ahead. |
| CourseCalculator.DaysUntilNextAgrees | utils/course_calculator.py:49-55 | Before August, or on a day of the month from the 15th on, the count as written equals the corrected count. |
| CourseCalculator.GetCourseInfo | utils/course_calculator.py:41-72 | Status is "выпускник" iff the course is ≥ 5. next is course+1 iff the course is < 4, else "выпуск". Days are the count as the code computes it, clamped at 0. The enrollment year is the argument and graduation is enrollment + 4. |
| CourseCalculator.GetCourseInfoIntended | utils/course_calculator.py:47-55 | With the corrected transition date, the summary is the same except that the days are the corrected, positive count. |
| CourseCalculator.AcademicYearLabel | utils/course_calculator.py:74-81 | The label is the year pair of the academic year the course counts in, except on 1–14 August, when it is already the next one. |
| CourseCalculator.YearPairInjective | utils/course_calculator.py:79-81 | Distinct academic years have distinct labels. |
| CourseCalculator.DisplayGraduate | utils/course_calculator.py:88-97 | Every graduate caption is the same, and it starts with 🎓, which no other caption does. |
| CourseCalculator.DisplayFirstChar | utils/course_calculator.py:94-97 | For a non-graduate, the caption starts with 📚 iff the course is outside 1..4. |
| CourseCalculator.DisplayDistinguishesCourses | utils/course_calculator.py:93-97 | For a non-graduate status, different courses get different captions. |
| Registration.Interval | handlers/registration.py:39 | `range(a, b)`: the integers from a up to b−1. |
| Registration.EnrollmentYears | handlers/registration.py:31-42 | The years are the ascending run from max(2020, academic−4) to the academic year. A year is in it iff it is in that range. Every year's course is 1..5, and there are at most five. |
| Registration.YearLabel | handlers/registration.py:68 | The label starts with 🎓 iff the course is ≥ 5, else with 📅. |
| Registration.YearButtons | handlers/registration.py:65-69 | One button per open year, in order. |
| Registration.Pairs | handlers/registration.py:69-74 | Rows hold consecutive buttons two at a time. |
| Registration.PairsFlatten | handlers/registration.py:64-74 | The rows read back as the buttons. Every row has one or two buttons, and all but the last have two. |
| Registration.YearKeyboard | handlers/registration.py:60-75 | The keyboard is the open years' buttons in rows of two. |
| Registration.YearRows | handlers/registration.py:63-74 | The row loop builds the rows of two. |
| Registration.RowsOf | handlers/registration.py:65-74 | The loop over years builds the paired buttons. |
| Registration.ParseInt | handlers/registration.py:183 | `int()` reads back every integer's decimal text. Whatever it accepts is, stripped, a run of ASCII digits, signs and underscores ending in a digit. |
| Registration.ParseIntStrips | handlers/registration.py:183 | Surrounding whitespace does not change the result. |
| Registration.ParseIntSigned | handlers/registration.py:183 | A leading '+' is accepted, and a leading '-' negates. |
| Registration.ParseIntUnderscore | handlers/registration.py:183 | A single underscore between digits is accepted and ignored. |
| Registration.ParseIntDoubleUnderscore | handlers/registration.py:183 | Two underscores in a row are refused. |
| Registration.IntLiteralRoundTrip | handlers/registration.py:183 | The decimal text of n, stripped and read as a literal, is n. |
| Registration.LiteralOfDigits | handlers/registration.py:183 | Plain digits, with no sign, a '+' or a '-', read as their decimal value, negated after '-'. |
| Registration.ChooseYear | handlers/registration.py:182-191 | A year is accepted only if it is open for registration now. |
| Registration.YearButtonAccepted | handlers/registration.py:69 | Every year button's data is accepted with its own year. |
| Registration.GroupRows | handlers/registration.py:80-86 | Engineering with 2021/2022 gives ИБ1, ИБ2 / ИО3, ИО4. Other years give ИБ3, ИБ4 / ИО5, ИО6. Law gives ЮО1, ЮО2. |
| Registration.GroupKeyboard | handlers/registration.py:88-102 | One button per group, row by row, followed by the custom-group button as the last row. |
| Registration.GroupNamesPlain | handlers/registration.py:82-86 | No preset group name is empty, contains '_' or is "custom". |
| Registration.GroupDataRoundTrip | handlers/registration.py:209-232 | "group_g_year" gives back the group and the year. "custom" gives the custom-group path. |
| Registration.GroupButtonsRoundTrip | handlers/registration.py:93 | Every preset group button is read back as that group and year. |
| Registration.CustomButtonRoundTrip | handlers/registration.py:99 | The custom button is read back as the custom-group path for that year. |
| Registration.CustomGroupName | handlers/registration.py:256-264 | The name is stripped and upper-cased. It is accepted iff its length is 1..20. |
| Registration.CustomGroupNameIdempotent | handlers/registration.py:256 | An accepted name is accepted again unchanged. |
| Registration.FullName | handlers/registration.py:279-285 | The stripped name is accepted iff it has at least two words. |
| Registration.FullNameWords | handlers/registration.py:280 | Two words separated by a space are accepted; one word is refused. |
| Tasks.FormatDateTime | handlers/tasks.py:159 | The stored deadline is 19 characters: the ISO date, a space, HH:MM:SS. |
| Tasks.FormatDateTimeDate | handlers/tasks.py:159 | The date part of the stored deadline reads back as the deadline's date. |
| Tasks.MatchReminder | handlers/tasks.py:124 | Matched numbers have at most two digits. |
| Tasks.MatchReminderIff | handlers/tasks.py:124-125 | A text is accepted with numbers x exactly when it is one or two digits, at least one whitespace character, one or two digits, ':' and two digits, with x the numbers of the three groups. |
| Tasks.MatchReminderSound | handlers/tasks.py:124-125 | Every accepted text has the pattern's shape, with the numbers of its groups. |
| Tasks.MatchReminderComplete | handlers/tasks.py:124-125 | Every text of that shape is accepted, with the numbers of its groups. |
| Tasks.MatchReminderPadded | handlers/tasks.py:124 | "DD HH:MM" with two-digit fields is matched with exactly those numbers. |
| Tasks.MatchReminderRejectsLongDay | handlers/tasks.py:124 | A three-digit day is rejected. |
| Tasks.TargetMonth | handlers/tasks.py:138-143 | A day before today's goes to the next month, with December rolling to January of next year. Otherwise this month is kept. |
| Tasks.Deadline | handlers/tasks.py:144-146 | A deadline exists iff the day exists in the target month, hour < 24 and minute < 60. It then carries those numbers and second 0. |
| Tasks.DeadlineNotBeforeToday | handlers/tasks.py:138-145 | The deadline's date is today or later. |
| Tasks.ReminderOutcome | handlers/tasks.py:123-154 | The result is "bad format" iff the stripped text does not match. A stored deadline has 19 characters, and its seconds are "00". |
| Tasks.TaskTable.AddWithReminder | handlers/tasks.py:119-160 | Accepted input adds one task with that deadline, not done and not reminded. Rejected input stores nothing. |
| Tasks.TaskTable.Insert | handlers/tasks.py:157-160 | An insert gives the row the next id and touches no other row. |
| Tasks.TaskTable.EditReminder | handlers/tasks.py:216-254 | Accepted input replaces the task's deadline and resets reminded, changing nothing else. Rejected input or an unknown id changes nothing. |
| Tasks.TaskTable.Update | handlers/tasks.py:252-254 | An update replaces one row only. |
| Apex.RStripSlash | apex_parser.py:41 | Only trailing '/' are removed, all of them. |
| Apex.RStripSlashIdempotent | apex_parser.py:41 | Stripping twice is stripping once. |
| Apex.FullUrl | apex_parser.py:74-79 | http:// and https:// paths come back unchanged. Other paths are joined to the stripped base with exactly one '/'. |
| Apex.FullUrlSeam | apex_parser.py:77-79 | A joined URL is the base, one '/', then the path without its own leading '/'. |
| Apex.FullUrlStable | apex_parser.py:75-76 | With an absolute base, joining a joined URL again changes nothing. |
| Apex.NormalizeGroupLabel | apex_parser.py:194-199 | The label is empty iff the stripped input is empty. |
| Apex.NormalizeTidy | apex_parser.py:196-198 | The result is stripped and has no whitespace next to any hyphen. |
| Apex.NormalizeIdempotent | apex_parser.py:194-199 | Normalising twice is normalising once. |
| Apex.NormalizeKeepsTidyLabel | apex_parser.py:196-198 | A label that is already tidy is kept as it is. |
| Apex.CollapseKeepsNonSpace | apex_parser.py:198 | The hyphen rewrite removes only whitespace. |
| Apex.CollapseTight | apex_parser.py:198 | After the rewrite no hyphen has whitespace beside it. |
| Apex.CollapseConcat | apex_parser.py:198 | No match of the pattern runs past a character that is neither whitespace nor '-', so a prefix ending in one is rewritten on its own. |
| Apex.CollapseKeepsInnerSpace | apex_parser.py:198 | Whitespace with no hyphen on either side is kept as typed, and the text on each side of it is rewritten on its own. |
| Apex.NormalizeKeepsInnerSpace | apex_parser.py:196-198 | Inside a stripped label, whitespace between two characters that are not hyphens or spaces survives normalisation. |
| Apex.NormalizeExample | apex_parser.py:194-199 | "Ио 6 -23" becomes "Ио 6-23": only the space next to the hyphen goes. |
| Apex.Lookup | apex_parser.py:210-211 | The exact lookup succeeds iff the key is present, with its value. |
| Apex.FirstCaseless | apex_parser.py:214-217 | The caseless search fails iff no key lower-cases to the label. |
| Apex.FindGroup | apex_parser.py:206-218 | None iff the label normalises to empty or no key matches it ignoring case. |
| Apex.FindGroupExact | apex_parser.py:210-211 | An exact key match wins. |
| Apex.FindGroupCaseless | apex_parser.py:213-217 | Without an exact match, the first key equal ignoring case, in dict order, wins. |
| Apex.FindGroupId | apex_parser.py:201-218 | The search loop computes the lookup. |
| Dates.MakeDate | handlers/tasks.py:145 | `datetime(y, m, d)` succeeds iff the date exists. |
| Dates.ParseFormatDate | handlers/edit_schedule.py:201-202 | A date printed as YYYY-MM-DD parses back to itself. |
| Dates.OrdinalOrder | utils/course_calculator.py:55 | Day numbers follow the calendar order, so date differences have the right sign. |

## Left out

- File, JSON, SQL and Telegram I/O: reading and writing schedules.json, the SQL queries, and messages, keyboards and conversation states. They are replaced by values passed in and returned. Only the logic around them is modelled.
- The distributor's "no connection" exit (handlers/duty_distributor.py:27-29) and its catch-all exception handler (150-153) are not modelled: the tables are always there, and no step fails.
- The object weights are an input map. The query that reads them (handlers/duty_distributor.py:111-117, 127-134) and the code that fills the table are not part of this model. Its silently ignored exception is therefore not modelled either.
- The distributor's polling trigger and the race between its existence check and its inserts are out of scope. The job is not registered in main.py.
- `random.shuffle` is a function parameter. Lemmas that need it to be a permutation require `IsShuffle`.
- Floating-point numbers (global score, weights, 0.5·score) are exact reals. No rounding is modelled.
- SQL ordering: `ORDER BY date DESC` breaks ties in insertion order (stable sort of the history), and `SELECT DISTINCT` keeps first occurrences. The roster queries at handlers/duty_distributor.py:47-50 and 86-89 have no ORDER BY; the model reads them in schedule order. That order is the input to the shuffle, and it breaks ties between equal scores in the stable `sorted` at line 124. The database leaves all of these unspecified.
- The assignment tables' unique keys are not part of this model. They are taken as (date, role, fio, year) for shifts and (date, fio, year) for the canteen, which is what INSERT OR REPLACE ends up replacing.
- The size limits of Python's `int()` and the integer width of the database are not modelled. Numbers are unbounded.
- Case mapping covers Latin and Russian Cyrillic letters only. Whitespace covers ASCII and Latin-1. Other Unicode characters are left as they are.
- DateParser.ParseDate takes the base "YYYY-MM" as two integers. Parsing that string, and its failure for malformed bases, is left out.
- CourseCalculator.GetCourseInfo requires a year below 9999, where Python's `date(today.year + 1, 8, 15)` would fail.
- `is_transition_period` (utils/course_calculator.py:83-86) and `get_course_partners` (utils/schedule.py:157-202) are not modelled. Its only caller passes arguments that do not match its signature.
- Registration.ParseInt: `int()` also accepts non-ASCII decimal digits (Arabic-Indic, full-width and so on) and strips all Unicode whitespace. The model accepts ASCII digits only and strips the whitespace set above.
- DateParser.ParseDate: `strptime` (utils/date_parser.py:19) and `str.isdigit()` with `int()` (lines 27-28, 37-38) also accept non-ASCII decimal digits. The model treats only 0–9 as digits, so such input is None in the model where the code would read the number.
- DateParser.ParseDateInput: the ISO text always pads the year to four digits, so "01.01.0999" gives "0999-01-01". For years below 1000, CPython's `strftime('%Y')` depends on the platform, and some C libraries print "999".
- DateParser.ParseDate: characters such as "²" pass `str.isdigit()`, but `int()` raises ValueError on them (utils/date_parser.py:28, 38), outside any try. The model returns None for them instead of raising.
- Tasks.MatchReminder: the pattern's `\d` matches any Unicode decimal digit. The model matches 0–9 only.
- EditSchedule.EditSession.ExecuteEdit: `file` is the value passed to `save_all_schedules`, not what that call writes. The real save drops every month whose value is not a list (utils/storage.py:48, 71-72), so it would drop the dict-valued months this module edits.
- Dicts are sequences of pairs in insertion order. `Schedule.FullPages` requires per_page > 0; the code divides by it.
- The timetable client's login, HTTP session, HTML parsing and cache are not modelled. As written, apex_parser.py:342 does not parse, so that module cannot be imported at all.
- Storage: keys that are not strings, nested and float values, Unicode digits other than 0–9 for `isdigit`, and the print/raise wrapping are not modelled.
- EditSchedule reads `schedules[month][group]` as a dict of groups, while `load_all_schedules` yields month → list. The model follows edit_schedule.py's own reading. The valid roles (`VALID_ROLES`, utils/roles.py) are a parameter, because that module is not part of this model. Records are strings only.
- Schedule.IsFemale: `sample.get('group', '')` on a record whose group is not a string is not modelled.

## Findings

| source | as written | input that shows it | evidently intended | confidence | as-written member | corrected member |
|---|---|---|---|---|---|---|
| utils/course_calculator.py:49-55 | the next transition is next year's 15 August when `today.month >= 8 and today.day >= 15`, otherwise this year's | 2025-09-03: month 9 but day 3, so this year's 15 August (already past) is taken; the count is negative and clamped to 0 | the first 15 August after today, i.e. next year's from 15 August on | not executed | CourseCalculator.DaysUntilNextAsWrittenWrong | CourseCalculator.DaysUntilNext |
