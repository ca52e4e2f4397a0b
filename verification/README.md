# SchedFlow, modelled and verified in Dafny

SchedFlow runs workflows on schedules. This project models its four cores and the job stores beside them, and proves
what they promise:

- **The cron search** (`Calendar`, `CronExpressions`, `CronSearch`, `CronFields`, `CronTriggers`). The eight-field
  odometer search of `CronTrigger.get_next_fire_time` is a class with the loops of the original. It is proved to
  return exactly what the simplest search returns: try every second from the rounded-up start to the end of year 9999.
  The calendar is concrete: proleptic Gregorian dates, weekdays, and ISO weeks as sections 3.2.1 and 3.2.2 of ISO
  8601:2004 define them, anchored at known dates (`CalendarFacts`). `CronText`, `CronAcceptance` and `CronRoundTrip`
  model compiling a field from text, which texts are accepted, printing, and the round trip between the two;
  `CronMeaning` and `CronKnownTexts` say in numbers and names what the fields stand for.
- **The other triggers** (`IntervalTriggers`, `CombiningTriggers`, `CronCombination`, `CalendarIntervalTriggers`,
  `Enumeration`, `Iteration`). Each has a set of fire times. Interval and or-triggers answer with its least element
  from where they look on; so does an and-trigger over cron triggers, whenever it answers, and a calendar interval
  trigger after a fire time of its own. Where this fails is said below. `TriggerTrees` is the JSON form of nested
  triggers.
- **The scheduler** (`Jobs`, `SchedulerSteps`, `SchedulerRuns`, `SchedulerTheorems`, `SchedulerRestarts`,
  `SchedulerInstances`, `SchedulerOperations`, `SchedulerPasses`, `ScheduledTriggers`, `SchedulerExamples`,
  `Schedulers`) is a step machine. A pass of the main loop reads the due jobs in one step and runs them in one step
  each; any operation, and any end of a run, may come between. Triggers may raise at every step. The write to the
  store may fail whenever a job is run; any other operation whose write fails raises and leaves everything as it was,
  and so is no step. `Schedulers.Scheduler` is the class whose methods take exactly these steps. `JobStores` and
  `StoreFacts` hold the plain store and the Redis store with its index of run times.
- **The workflow engine** (`Graph`, `Layering`, `Ancestry`, `WorkflowMeaning`, `WorkflowTheorems`, `ExecutionLogs`,
  `Workflows`, `TaskSpecs`, `WorkflowJson`, `JsonFacts`). A run executes the graph layer by layer and collects results
  in any order; it is proved to give every node the record that a recursive definition over its predecessors gives it.

Time: an instant is a whole number of microseconds on the civil time line of one zone with a fixed offset, counted
from the day before 0001-01-01; a timestamp, as the Redis index stores it, is what has passed since 1970 in UTC.
Within the zone `fromtimestamp(timestamp() + difference)` is addition, and civil date-times and seconds are in
bijection (`Calendar.CivilOfSec`). An exception is a value of the result type: `Raises`, `Err`, `None`, or an answer
of its own.

## Where the code does not do what it says

Each of these follows the code, has a lemma, and where it is a condition the lemma says exactly when it holds.

- A cron search that starts at the very last second of year 9999 raises `IndexError` instead of returning `None` when
  the year matches and another field does not (`CronRaisesExactly`, `IndexErrorHappens`).
- An and-trigger over cron triggers, asked for the time after a fire time, decides in its first pass or never ends:
  raising `now` no longer changes the answers. From a `now` before that fire time it may first climb up to it. When it
  does decide, the answer is right (`AndOverCronDecidesSoonOrNever`, `AndOverCronDecidesAtOnceOrNever`,
  `AndOverCronAnswer`, `AndOverCronCanRunForever`).
- The cron range `0-0` with a step prints without its upper end, and the printed text means something else
  (`CompilePrintCompile`, `DegenerateFieldChanges`).
- `job.missed` is published before the job is advanced, so a failed write makes it appear again for the same run time;
  a dispatch never repeats (`StepRepeatsExactly`, `EachFireTimeOnce`, `MissedTwice`, `DispatchedAtMostOnce`).
- A job paused after a pass has read it is scheduled again when that pass advances it: the store gets the job back as
  it was read (`PauseDuringAPass`, `PauseIsLost`).
- The Redis index never returns a due job whose time lies before 1970 UTC, which the plain store does (`DueJobsAgree`,
  `OldJobIsNeverReturned`).
- Without a previous fire time, a calendar interval trigger is documented to answer with the next time equal to or
  later than the current one. It answers with its start date, which is that if and only if the start date does not lie
  in the past (`FirstAnswerIsNextIff`, `PastStartIsReturned`).
- `_skip_reason` lists every condition on an edge whose source succeeded, also those that were met: its reasons are the
  edges at fault if and only if no condition was met (`ReasonsAreFaultsIff`, `RecordedReasons`, `MetConditionIsBlamed`).

## Model

| member | source | states |
|---|---|---|
| `Calendar.WeekTurnsOnMonday` | src/schedflow/triggers/cron/fields.py:123-145 | the two virtual fields follow the calendar: weekdays run in a cycle of seven, and the ISO week changes exactly on Mondays, to the next number or to week 1 of the next ISO year |
| `Calendar.WeekOneHasFirstThursday` | src/schedflow/triggers/cron/fields.py:123-127 | week 1 is the week with the first Thursday of its ISO year |
| `CalendarFacts.WeekdaysRunFromMonday` | src/schedflow/triggers/cron/fields.py:144-145 | day 1 of the calendar is a Monday, and the weekday of the day n days on is n modulo 7 |
| `CalendarFacts.FirstDay` | src/schedflow/triggers/cron/fields.py:136-145 | day 1 is 0001-01-01 |
| `CalendarFacts.ReachedByDays` | src/schedflow/triggers/cron/fields.py:136-145 | every date from there on is reached day by day |
| `CalendarFacts.NewYear2024` | src/schedflow/triggers/cron/fields.py:126-145 | 1 January 2024 is a Monday, in week 1 of 2024 |
| `CalendarFacts.SundayInWeek53` | src/schedflow/triggers/cron/fields.py:126-145 | 3 January 2021 is a Sunday, in week 53 of 2020 |
| `CalendarFacts.MonthLengths` | src/schedflow/triggers/cron/fields.py:136-137 | the lengths of the twelve months, with the leap year rule |
| `CalendarFacts.SecondsOf` | src/schedflow/triggers/cron/__init__.py:267-271 | the seconds of a date-time, counted from the day before 0001-01-01 |
| `Calendar.CivilOfSec` | src/schedflow/triggers/cron/__init__.py:267-271 | in a fixed-offset zone, going to seconds and back is the identity on all fields, over the whole range of `datetime` |
| `Calendar.BeforeIsChronological` | src/schedflow/triggers/cron/__init__.py:320-321 | comparing date-times field by field is comparing instants |
| `CronExpressions.RangeNextIsLeast` | src/schedflow/triggers/cron/expressions.py:113-128 | a range answers with the least member, at or above the current value, of the stepped range clipped to the field and the month; `None` only when there is none |
| `CronExpressions.WeekdayPositionIsExact` | src/schedflow/triggers/cron/expressions.py:240-256 | the computed day is the nth (or last) such weekday of the month, counted day by day on the Gregorian calendar, and the only one |
| `CronExpressions.ExprNextIsLeast` | src/schedflow/triggers/cron/expressions.py:51-283 | every kind of expression answers with the least value at or above the current one in the set it denotes, `None` exactly when that is empty |
| `CronMeaning.StarMeans` | src/schedflow/triggers/cron/fields.py:25-44 | a star stands for every value of the field, in numbers, with a step for every so-manieth from the first |
| `CronMeaning.RangeMeans` | src/schedflow/triggers/cron/expressions.py:113-128 | a range stands for the numbers from its first to its last value that the field has, with a step counted from the first |
| `CronMeaning.NamesMean` | src/schedflow/triggers/cron/expressions.py:159-207 | a range of names stands for the numbers from the first to the last |
| `CronMeaning.PositionMeans` | src/schedflow/triggers/cron/expressions.py:240-256 | the nth weekday lies in the nth seven days of the month, the last one in its last seven |
| `CronMeaning.LastMeans` | src/schedflow/triggers/cron/expressions.py:278-279 | the last day is the one without a next day in its month |
| `CronMeaning.MatchesExactly` | src/schedflow/triggers/cron/fields.py:73-145 | a date-time matches when year, month, day, ISO week, weekday, hour, minute and second match fields 0 to 7 |
| `CronFields.CronField.GetNextValue` | src/schedflow/triggers/cron/fields.py:76-83 | the fold returns the least over all expressions of the field |
| `CronFields.CronField.CompileExpression` | src/schedflow/triggers/cron/fields.py:92-108 | the expression a text stands for is appended, or a ValueError leaves the list as it was |
| `CronFields.CronField.CompileExpressions` | src/schedflow/triggers/cron/fields.py:85-90 | the list is split at commas and compiled in order, up to the first error |
| `CronFields.MakeField` | src/schedflow/triggers/cron/fields.py:62-65 | a field is built exactly when its whole text compiles, and holds the compiled expressions |
| `CronAcceptance.AcceptedExactly` | src/schedflow/triggers/cron/fields.py:92-108 | exactly which texts a field accepts: the first pattern that matches decides, and what it reads must meet the demands on its kind; all other texts are refused |
| `CronAcceptance.RangeAccepted` | src/schedflow/triggers/cron/expressions.py:81-111 | a range is accepted if and only if its order, bounds and step are right, a last value of 0 counting as none for the step |
| `CronAcceptance.NamesAccepted` | src/schedflow/triggers/cron/expressions.py:162-207 | month and weekday ranges are accepted if and only if both names are known, up to case, and in order |
| `CronKnownTexts.MonthNameCompiles` | src/schedflow/triggers/cron/expressions.py:162-176 | the twelve month names, in any case, stand for 1 to 12 |
| `CronKnownTexts.WeekdayNameCompiles` | src/schedflow/triggers/cron/expressions.py:193-207 | the seven weekday names, in any case, stand for 0 to 6 from Monday |
| `CronKnownTexts.MonToFri` | src/schedflow/triggers/cron/expressions.py:190-207 | `Mon-Fri` compiles to the weekdays 0 to 4 |
| `CronKnownTexts.ListSplits` | src/schedflow/triggers/cron/fields.py:55-90 | commas separate, and any blanks around them do not count |
| `CronKnownTexts.WhiteStripped` | src/schedflow/triggers/cron/fields.py:89 | white space around a whole field does not count |
| `CronKnownTexts.TwoNumbers` | src/schedflow/triggers/cron/fields.py:85-108 | a list of two numbers, with any blanks, compiles to these two numbers |
| `CronKnownTexts.OneAndFifteen` | src/schedflow/triggers/cron/fields.py:85-108 | `1, 15` is the first and the fifteenth |
| `CronKnownTexts.EveryQuarter` | src/schedflow/triggers/cron/expressions.py:51-64 | `*/15` in the minute field is 0, 15, 30 and 45 |
| `CronRoundTrip.PrintedExpressionCompiles` | src/schedflow/triggers/cron/expressions.py:137-282 | the printed form of every compiled expression, names and steps included, compiles to that expression, except a stepped range of one value, which loses its upper end |
| `CronRoundTrip.CompilePrintCompile` | src/schedflow/triggers/cron/fields.py:85-117 | for every text that compiles, the printed field compiles to the same list if and only if no element is a stepped range of one value |
| `CronRoundTrip.DegenerateFieldChanges` | src/schedflow/triggers/cron/expressions.py:106-146 | the exception is reachable: minute 0-0/5 compiles, prints as 0/5, and that compiles to something else |
| `CronSearch.SettingSkipsNothing` | src/schedflow/triggers/cron/__init__.py:308-310 | raising a real field to its next value passes over no matching date-time |
| `CronSearch.SteppingADaySkipsNothing` | src/schedflow/triggers/cron/__init__.py:311-314 | when week or weekday does not match, stepping the day passes over no match |
| `CronSearch.CarryingSkipsNothing` | src/schedflow/triggers/cron/__init__.py:301-305 | when a field has no more values, incrementing a more significant one passes over no match, through carries and months of any length |
| `CronSearch.IncrementIsValid` | src/schedflow/triggers/cron/__init__.py:239-271 | the increment gives a valid, strictly later date-time that agrees above the incremented field |
| `CronTriggers.TextPicked` | src/schedflow/triggers/cron/__init__.py:164-174 | popping given fields one by one assigns the default value exactly to those less significant than every given one, and `*` to the rest |
| `CronKnownTexts.DefaultsExactly` | src/schedflow/triggers/cron/__init__.py:164-174 | the text of every field, with the defaults spelled out |
| `CronKnownTexts.LoneDayFires` | src/schedflow/triggers/cron/__init__.py:161-178 | a trigger given day 15 alone matches exactly midnight of every fifteenth from 1970 on |
| `CronTriggers.CronTrigger.Create` | src/schedflow/triggers/cron/__init__.py:161-178 | a trigger is built exactly when all eight texts compile, each field from its text, in order |
| `CronTriggers.CronTrigger.IncrementFieldValue` | src/schedflow/triggers/cron/__init__.py:227-271 | the loop that walks the fields with carries, redirection of week and weekday, and negative list indices computes the carried increment, or the index error |
| `CronTriggers.CronTrigger.SetFieldValue` | src/schedflow/triggers/cron/__init__.py:273-284 | more significant fields are kept and less significant ones reset to their minimum |
| `CronTriggers.CronTrigger.Iterate` | src/schedflow/triggers/cron/__init__.py:297-317 | one pass moves on, raises or increments as the least next value of the field says |
| `CronTriggers.AfterStep` | src/schedflow/triggers/cron/__init__.py:296-321 | each pass keeps the search invariant: fields before the current one match, and nothing before the current date-time matches; and it advances the date-time, or keeps it and advances the field, or leaves the loop |
| `CronTriggers.CronTrigger.Search` | src/schedflow/triggers/cron/__init__.py:294-325 | the loop ends and returns what trying every second returns |
| `CronTriggers.CronTrigger.GetNextFireTime` | src/schedflow/triggers/cron/__init__.py:286-325 | start rule, rounding up, search and end date together refine the simple definition |
| `CronTriggers.CronAnswersLeast` | src/schedflow/triggers/cron/__init__.py:286-325 | the answer is the least whole second at or after the start at which all eight fields match and that is at or before the end date; `None` only when there is none up to year 9999 |
| `CronTriggers.CronRaisesExactly` | src/schedflow/triggers/cron/__init__.py:286-325 | exactly when the call raises: rounding or adding a microsecond leaves the range of `datetime`, or the index error in the last second |
| `CronTriggers.IndexErrorHappens` | src/schedflow/triggers/cron/__init__.py:241-271 | every minute, asked at 9999-12-31 23:59:59, raises although there is simply no match left |
| `IntervalTriggers.Length` | src/schedflow/triggers/interval.py:134-142 | the length is the sum of the components, an empty interval counting as one second |
| `IntervalTriggers.AnswersWithLeast` | src/schedflow/triggers/interval.py:148-164 | the first answer is the least start + k * length at or after `now`, later ones the least after the previous one, up to the end date; the trigger never raises |
| `IntervalTriggers.AnswersExactly` | src/schedflow/triggers/interval.py:149-164 | after any previous time the answer is one length later, and `None` exactly when that is past the end date |
| `CombiningTriggers.RaisingSkipsNothing` | src/schedflow/triggers/combining.py:85-86 | moving `now` to the latest answer passes over no common fire time |
| `CombiningTriggers.AndNext` | src/schedflow/triggers/combining.py:75-86 | over members that answer with the least of their fire times, one of them bounded, the loop ends with the least common one, or `None` when there is none; it raises exactly without members, or when a member does in the last pass |
| `CombiningTriggers.AndAnswerExactly` | src/schedflow/triggers/combining.py:81-84 | what the last pass gives: an exception if some member raises, else `None` if some member is finished, else the time on which all agree |
| `CombiningTriggers.OrAnswersLeast` | src/schedflow/triggers/combining.py:110-119 | the answer is the least element of the union of the members' fire times |
| `CombiningTriggers.OrAnswersExactly` | src/schedflow/triggers/combining.py:110-119 | it raises exactly when some member does, has no answer exactly when no member has one, and else gives the earliest answer, finished members not counting |
| `CronCombination.CronMembers` | src/schedflow/triggers/combining.py:51-66 | cron triggers meet the and-trigger's demand on its members when nothing has fired yet |
| `CronCombination.FirstCommonFireTime` | src/schedflow/triggers/combining.py:75-86 | an and-trigger over any cron triggers first fires at their least common time, or never |
| `CronCombination.NowDoesNotMatter` | src/schedflow/triggers/cron/__init__.py:287-290 | after a fire time, cron answers are the same for every later `now` |
| `CronCombination.AndOverCronDecidesSoonOrNever` | src/schedflow/triggers/combining.py:76-86 | with a previous fire time, and whatever `now`, the loop ends if and only if it has decided after as many passes as `now` lies microseconds before that time |
| `CronCombination.AndOverCronDecidesAtOnceOrNever` | src/schedflow/triggers/combining.py:76-86 | so from a `now` that is not before the previous fire time it ends if and only if its first pass decides |
| `CronCombination.AndOverCronAnswer` | src/schedflow/triggers/combining.py:76-86 | when it ends, the answer is the least common time after the previous one; from an earlier `now`, the least one from there but for the previous fire time |
| `Iteration.SoonOrNever` | src/schedflow/triggers/combining.py:76-86 | a search that climbs to a bar and then stays alike settles within the distance to the bar, or never |
| `CronCombination.AndOverCronCanRunForever` | src/schedflow/triggers/combining.py:76-86 | every second and every minute: after a full minute no pass ever decides, although every full minute is common |
| `TriggerTrees.TreeRoundTrip` | src/schedflow/triggers/combining.py:28-41 | a nested trigger comes back from its JSON form if and only if each of its plain triggers is of a known type and is read back by its model as it was written |
| `TriggerTrees.TreesFromJson` | src/schedflow/triggers/combining.py:40 | nested triggers are rebuilt one by one in order, and one failure fails the whole |
| `TriggerTrees.ReadTreesSurvive` | src/schedflow/triggers/base.py:102-119 | over static and run-time registries, whatever is read without an exception survives writing and reading, if the models of plain triggers do so |
| `JsonFacts.KnownTypes` | src/schedflow/triggers/registry.py:11-18 | which plain types are known |
| `JsonFacts.TreeJsonExactly` | src/schedflow/triggers/combining.py:28-35 | the JSON form of a nested trigger, key by key |
| `CalendarIntervalTriggers.AddMonths` | src/schedflow/triggers/calendarinterval.py:164-167 | one pass moves the month index by exactly 12 * years + months |
| `CalendarIntervalTriggers.CalendarIntervalTrigger.Create` | src/schedflow/triggers/calendarinterval.py:115-149 | refuses exactly an empty interval, or an end before the start |
| `CalendarIntervalTriggers.CalendarIntervalTrigger.RetryMonths` | src/schedflow/triggers/calendarinterval.py:163-174 | the retry loop ends, after at most 4800 passes, in the first later month that has the day |
| `CalendarIntervalTriggers.HitsRecur` | src/schedflow/triggers/calendarinterval.py:164-174 | month lengths repeat every 4800 months, so the loop always has a month to find |
| `CalendarIntervalTriggers.CalendarIntervalTrigger.GetNextFireTime` | src/schedflow/triggers/calendarinterval.py:158-190 | the start date first, then the date after the previous one, `None` past the end date, an error for a time of day that does not exist; `now` plays no part |
| `CalendarIntervalTriggers.CalendarIntervalTrigger.DateAfterExactly` | src/schedflow/triggers/calendarinterval.py:163-174 | the next date is 7 * weeks + days days after the first later month, whole steps of years and months on, that has the day; no earlier such month has it |
| `CalendarIntervalTriggers.CalendarIntervalTrigger.EvenDates` | src/schedflow/triggers/calendarinterval.py:173 | without years and months the k-th date lies k * (7 * weeks + days) days after the start |
| `CalendarIntervalTriggers.CalendarIntervalTrigger.EvenInstants` | src/schedflow/triggers/calendarinterval.py:173-184 | and the instants are an arithmetic progression |
| `CalendarIntervalTriggers.CalendarIntervalTrigger.FireTimesExactly` | src/schedflow/triggers/calendarinterval.py:178-184 | a fire time is the time of day on an enumerated date up to and including the end date |
| `CalendarIntervalTriggers.AWeekLater` | src/schedflow/triggers/calendarinterval.py:158-190 | a weekly trigger after 1 January 2024 answers with 8 January 2024 |
| `CalendarIntervalTriggers.CalendarIntervalTrigger.AnswersNext` | src/schedflow/triggers/calendarinterval.py:162-190 | after a fire time the answer is the least later element of the set of fire times |
| `CalendarIntervalTriggers.CalendarIntervalTrigger.FirstAnswerIsNextIff` | src/schedflow/triggers/calendarinterval.py:71-75 | without a previous fire time the answer is the next one from the current time on if and only if the start date is not in the past |
| `CalendarIntervalTriggers.PastStartIsReturned` | src/schedflow/triggers/calendarinterval.py:175-176 | a daily trigger from 1 January 2020, asked in 2024, answers with its start date |
| `CalendarIntervalTriggers.CalendarIntervalTrigger.DatesIncrease` | src/schedflow/triggers/calendarinterval.py:162-174 | each date is later than the one before |
| `CalendarIntervalTriggers.CalendarIntervalTrigger.KeepsDayOfMonth` | src/schedflow/triggers/calendarinterval.py:162-174 | without weeks and days the k-th date keeps the day of month and lies as many steps on as the k-th month that has it |
| `CalendarIntervalTriggers.CalendarIntervalTrigger.EnumeratesValidMonths` | src/schedflow/triggers/calendarinterval.py:162-174 | a month a whole number of steps on is enumerated if and only if it has the day: none is left out |
| `JobStores.MemoryDueIsExact` | src/schedflow/core/jobstore.py:88-94 | the plain store returns exactly the due jobs, each once, in time order |
| `StoreFacts.DueExactly` | src/schedflow/core/jobstore.py:88-94 | the due jobs are those whose run time is at or before `now`, as they are stored, each once, in time order |
| `StoreFacts.TiesKeepOrder` | src/schedflow/core/jobstore.py:94 | due jobs of equal time come in the order in which they were added |
| `StoreFacts.OperationsExactly` | src/schedflow/core/jobstore.py:70-83 | the answer of every operation, and the whole new contents |
| `StoreFacts.RemovalKeepsOrder` | src/schedflow/core/jobstore.py:80-83 | a removal keeps the order of the other jobs |
| `JobStores.MemoryJobStore.Add` | src/schedflow/core/jobstore.py:70-73 | adds the job at the end, or conflicts and changes nothing |
| `JobStores.MemoryJobStore.Update` | src/schedflow/core/jobstore.py:75-78 | replaces the job in place, or reports that it is unknown |
| `JobStores.MemoryJobStore.Remove` | src/schedflow/core/jobstore.py:80-83 | removes the job and keeps the order of the others |
| `JobStores.RedisStaysValid` | src/schedflow/core/stores/redis.py:49-89 | every operation keeps the index exact: an id is in it if and only if its job has a run time, once, with that score |
| `JobStores.RedisJobStore.Add` | src/schedflow/core/stores/redis.py:49-63 | hash and index after an addition |
| `JobStores.RedisJobStore.Update` | src/schedflow/core/stores/redis.py:65-81 | hash and index after an update, also to or from no run time |
| `JobStores.RedisJobStore.Remove` | src/schedflow/core/stores/redis.py:83-89 | hash and index after a removal |
| `JobStores.RedisDueIsExact` | src/schedflow/core/stores/redis.py:95-99 | the index returns exactly the due jobs whose timestamp is not negative, that is, from 1970 UTC on, each once, in time order |
| `JobStores.StoresAgree` | src/schedflow/core/stores/redis.py:49-89 | after every sequence of operations both stores have given the same answers and hold the same jobs |
| `JobStores.DueJobsAgree` | src/schedflow/core/stores/redis.py:95-99 | both return the same due jobs with the same sequence of times if and only if no due time lies before 1970 UTC |
| `JobStores.OldJobIsNeverReturned` | src/schedflow/core/stores/redis.py:95-99 | a job of 1960, added to both stores, is due in the plain one and never returned by the index, in every zone |
| `JobStores.EpochIs1970` | src/schedflow/core/stores/redis.py:96-98 | the origin of the scores on the civil time line |
| `JobStores.NextRunTimesAgree` | src/schedflow/core/stores/redis.py:111-117 | both name the same next run time |
| `SchedulerSteps.RejectedChangesNothing` | src/schedflow/core/scheduler.py:366-535 | an operation that raises leaves store and events alone; one that succeeds publishes one event |
| `SchedulerSteps.StepKeepsValid` | src/schedflow/core/scheduler.py:651-724 | every step keeps the store consistent and the pass free of duplicates and of jobs that are not due |
| `SchedulerOperations.AddExactly` | src/schedflow/core/scheduler.py:394-413 | the job as it is stored, the event, and which exception a rejected addition raises |
| `SchedulerOperations.UpdateExactly` | src/schedflow/core/scheduler.py:451-495 | given fields replace the old ones, others are kept, a new trigger reschedules; and the exceptions |
| `SchedulerOperations.PauseResumeRemoveExactly` | src/schedflow/core/scheduler.py:498-535 | what pausing, resuming and removing leave in the store and publish; and the exceptions |
| `SchedulerOperations.RunDueExactly` | src/schedflow/core/scheduler.py:660-711 | what running a due job leaves in the store and in the counts, the trigger being asked for the time after the run time at the time of the pass; and exactly when it raises |
| `SchedulerOperations.FinishExactly` | src/schedflow/core/scheduler.py:720-733 | the end of a run is counted off and published as what it was; no count falls below zero or is kept at zero |
| `SchedulerPasses.PollExactly` | src/schedflow/core/scheduler.py:652-656 | a pass reads exactly the stored jobs whose run time has come, each once, in the order of their run times |
| `SchedulerPasses.RestDecides` | src/schedflow/core/scheduler.py:657-690 | a pass decides on each of these jobs once, in order, from the counts at its beginning, until one raises |
| `SchedulerPasses.PassDecides` | src/schedflow/core/scheduler.py:651-690 | if nothing raises, every job whose run time has come is missed, refused or submitted, exactly one of these, once, for its stored run time; and no other job is |
| `Schedulers.Scheduler.AddJob` | src/schedflow/core/scheduler.py:366-413 | takes the step of the step machine, and answers with the right exception |
| `Schedulers.Scheduler.UpdateJob` | src/schedflow/core/scheduler.py:437-496 | changes the given fields and reschedules on a new trigger, within one store; an unknown job or a raising trigger changes nothing |
| `Schedulers.Scheduler.PauseJob` | src/schedflow/core/scheduler.py:507-517 | the stored job is paused and has no run time, or the job is unknown |
| `Schedulers.Scheduler.ResumeJob` | src/schedflow/core/scheduler.py:519-535 | the stored job runs again from what its trigger first answers, or the call raises and changes nothing |
| `Schedulers.Scheduler.RemoveJob` | src/schedflow/core/scheduler.py:498-505 | the job leaves the store, or is unknown |
| `Schedulers.Scheduler.Advance` | src/schedflow/core/scheduler.py:692-711 | stores the next run time, removes a finished job, or raises and changes nothing |
| `Schedulers.Scheduler.RunDueJob` | src/schedflow/core/scheduler.py:660-690 | misses, refuses or dispatches the run, advancing before dispatching |
| `Schedulers.Scheduler.ProcessDue` | src/schedflow/core/scheduler.py:651-658 | runs the due jobs in order until one raises; if none does, the events say of every job that was due that it was missed, refused or submitted, once, and of no other |
| `SchedulerPasses.PassIsARun` | src/schedflow/core/scheduler.py:651-658 | a whole pass is a run of the step machine, so what holds of all runs holds of it |
| `Schedulers.Scheduler.OnJobFinished` | src/schedflow/core/scheduler.py:713-767 | counts the run off and publishes its end |
| `SchedulerRuns.StepMoves` | src/schedflow/core/scheduler.py:651-724 | for every job, every step leaves it where it is (or without a run time), handles its pending run time and goes to what the trigger answers, or publishes a missed run it could not advance |
| `SchedulerTheorems.DispatchedAtMostOnce` | src/schedflow/core/scheduler.py:679-711 | over every run, with writes failing at will, the dispatched run times of a job strictly increase and lie before the stored one, so none is dispatched twice |
| `SchedulerRestarts.DispatchedOnceOverRestarts` | src/schedflow/core/scheduler.py:366-535 | the same over every run that also adds, replaces, resumes and reschedules the job, as long as each such restart answers with a time after those dispatched so far |
| `SchedulerRestarts.OperationStaysAhead` | src/schedflow/core/scheduler.py:366-535 | that condition is exact: an operation keeps the job ahead of everything dispatched if and only if it restarts it later |
| `SchedulerTheorems.NothingPendingNothingRuns` | src/schedflow/core/scheduler.py:651-711 | over every run a job without a pending run time is neither missed nor dispatched |
| `SchedulerTheorems.StoppedForGood` | src/schedflow/core/scheduler.py:498-517 | outside a pass, a paused or removed job is not run again by any sequence of steps that does not resume, reschedule or add it |
| `SchedulerTheorems.PauseThenResume` | src/schedflow/core/scheduler.py:507-535 | resuming undoes pausing, but for the run time, which is what the trigger first answers; all other jobs, counts and the pass are untouched |
| `SchedulerTheorems.ResumedAfterPause` | src/schedflow/core/scheduler.py:507-535 | however long a job stays paused and whatever happens meanwhile, resuming it continues where it was paused, with the trigger's first answer pending |
| `SchedulerTheorems.NoFireTimeIsLost` | src/schedflow/core/scheduler.py:651-711 | over every run the handled times are fire times in order, and include every one from the first up to the pending one |
| `SchedulerTheorems.StepRepeatsExactly` | src/schedflow/core/scheduler.py:662-670 | a step repeats a handled time if and only if it publishes a missed run and then cannot advance a job that is still scheduled |
| `SchedulerTheorems.EachFireTimeOnce` | src/schedflow/core/scheduler.py:660-711 | all along a run every fire time is handled once if and only if no such step occurs |
| `SchedulerExamples.MissedTwice` | src/schedflow/core/scheduler.py:666-669 | such a step does occur: from an empty scheduler, a job added, polled late and failing to be written publishes the same missed run twice |
| `SchedulerTheorems.LastRunCompletes` | src/schedflow/core/scheduler.py:697-706 | when the trigger is finished the job is removed, and exactly its fire times from the first on have been handled |
| `ScheduledTriggers.CronJobRuns` | src/schedflow/core/scheduler.py:651-711 | a cron job starts at its first match; over every run the dispatched and missed times are exactly the matches from there to the pending one, each once, unless a missed run could not be advanced |
| `ScheduledTriggers.IntervalJobRuns` | src/schedflow/triggers/interval.py:148-164 | the pending time of an interval job is first + n * length, n being the number of runs dispatched or missed |
| `ScheduledTriggers.CalendarIntervalJobRuns` | src/schedflow/triggers/calendarinterval.py:158-190 | a calendar interval job starts at its start date; over every run no date is lost or dispatched twice, and the dispatched and missed times are exactly the enumerated dates before the pending one, unless a missed run could not be advanced |
| `ScheduledTriggers.AddStarts` | src/schedflow/core/job.py:68-73 | a job added under a new id waits for the first time its trigger gives, with nothing handled |
| `SchedulerInstances.StepCounts` | src/schedflow/core/scheduler.py:671-690 | a step keeps the count of running instances right, and dispatches only below the limit of the job |
| `SchedulerInstances.RunningCountsDispatches` | src/schedflow/core/scheduler.py:720-724 | over every run `_running` is the number of dispatches that have not ended |
| `SchedulerInstances.NeverMoreThanTheLimit` | src/schedflow/core/scheduler.py:671-685 | over every run the runs in flight never exceed the largest limit the job was given |
| `SchedulerInstances.RunDueEvents` | src/schedflow/core/scheduler.py:660-690 | the exact events of running a due job, in order: missed if and only if later than the grace time, refused if and only if not late and at the limit, else dispatched; an exception precedes any dispatch |
| `SchedulerInstances.RunKeepsEachMayRun` | src/schedflow/core/job.py:67 | over every run each job may have at least one run in flight |
| `SchedulerInstances.IdleJobIsDispatched` | src/schedflow/core/scheduler.py:671-690 | after every run, a due job that is not late and has nothing in flight is dispatched in its turn, unless its trigger or the store raises |
| `SchedulerInstances.PauseDuringAPass` | src/schedflow/core/scheduler.py:707-711 | exactly when a pause that comes between the reading and the running of a due job is lost |
| `SchedulerExamples.PauseIsLost` | src/schedflow/core/scheduler.py:684-711 | from an empty scheduler, a job paused between the reading and the running of its due time runs on |
| `Graph.Generations` | src/schedflow/core/workflow.py:358-372 | the layers are those of Kahn's method: each holds, without duplicates, exactly the nodes whose predecessors lie in earlier layers and that do not, and no node is left that could follow |
| `Graph.CountNode` | src/schedflow/core/workflow.py:366-370 | the inner loop keeps every counter at the number of predecessors not yet taken off |
| `Layering.OneLayer` | src/schedflow/core/workflow.py:358-372 | no node is listed twice |
| `Layering.PredecessorsAreEarlier` | src/schedflow/core/workflow.py:358-372 | every predecessor lies in a strictly earlier layer |
| `Layering.LayerIsLongestPath` | src/schedflow/core/workflow.py:358-372 | a node's layer is the length of the longest path that leads to it |
| `Layering.CoversAllIffAcyclic` | src/schedflow/core/workflow.py:358-372 | on an arbitrary graph the layers hold every node if and only if there is no cycle |
| `Layering.EdgeClosesCycle` | src/schedflow/core/workflow.py:166-171 | adding an edge to an acyclic graph keeps it acyclic exactly when its source is not reachable from its target |
| `Workflows.IsDag` | src/schedflow/core/workflow.py:168 | decides whether the graph has a cycle |
| `Workflows.Workflow.constructor` | src/schedflow/core/workflow.py:73-84 | an empty workflow |
| `Workflows.Workflow.AddTask` | src/schedflow/core/workflow.py:88-138 | adds the node, or rejects an empty or known id or a bad specification and changes nothing |
| `Workflows.Workflow.AddEdge` | src/schedflow/core/workflow.py:140-172 | rejects an edge between known nodes exactly when the source is reachable from the target, self-loops included, and then changes nothing; the graph stays acyclic |
| `Workflows.Workflow.ExecuteNode` | src/schedflow/core/workflow.py:267-285 | the result of the first successful attempt, or of the last one |
| `Workflows.Workflow.SubmitGeneration` | src/schedflow/core/workflow.py:250-260 | every node of the layer is skipped or submitted by what the log said when the layer began |
| `Workflows.Workflow.CollectResults` | src/schedflow/core/workflow.py:262-265 | in whatever order results come in, the records end up the same |
| `Workflows.Workflow.ExecuteGeneration` | src/schedflow/core/workflow.py:238-265 | after a layer each of its nodes has the record its predecessors' records imply, and the others are as before |
| `Workflows.Workflow.Run` | src/schedflow/core/workflow.py:181-217 | every completion order gives every node the record of the recursive meaning; each record went from pending to running to succeeded or failed, or to skipped; the log has succeeded if and only if no node's meaning is a failure |
| `WorkflowTheorems.OnlyOneOutcome` | src/schedflow/core/workflow.py:202-302 | records that follow from those of the predecessors are the meanings: there is no second outcome |
| `WorkflowTheorems.FinalStatus` | src/schedflow/core/workflow.py:209-217 | no node is left pending or running |
| `WorkflowTheorems.SkippedIffBlocked` | src/schedflow/core/workflow.py:312-328 | a node is skipped if and only if a path reaches it from a failed node, or through an edge whose source succeeded and whose condition was false |
| `WorkflowTheorems.OnlyConditionsSkip` | src/schedflow/core/workflow.py:312-328 | without failures, every skipped node lies behind an edge whose source succeeded and whose condition was false |
| `WorkflowMeaning.ReasonsAreFaultsIff` | src/schedflow/core/workflow.py:330-340 | the skip reasons are exactly those of the edges at fault if and only if no edge with a condition holds |
| `WorkflowTheorems.RecordedReasons` | src/schedflow/core/workflow.py:330-340 | the same for the reasons recorded in every run |
| `WorkflowMeaning.MetConditionIsBlamed` | src/schedflow/core/workflow.py:330-340 | behind a failed task and a condition that was met, the condition is blamed as well |
| `WorkflowTheorems.RunsWithAllPredecessors` | src/schedflow/core/workflow.py:342-356 | a node that runs is called with every workflow input and, exactly when it has predecessors, with `_pre_results`, which maps exactly its set of predecessors, all succeeded, to their results, also with parallel edges |
| `WorkflowTheorems.RunsExactly` | src/schedflow/core/workflow.py:312-328 | a node runs if and only if every edge into it comes from a task that succeeded and has no condition or one that holds |
| `WorkflowTheorems.RecordExactly` | src/schedflow/core/workflow.py:267-302 | the record of a node that ran: status, result, error, output and exit code are those of the first successful attempt, or of the last one |
| `WorkflowTheorems.SkippedRecordExactly` | src/schedflow/core/log.py:85-87 | the record of a skipped node holds the reasons and nothing else |
| `WorkflowMeaning.Attempts` | src/schedflow/core/workflow.py:281-285 | the attempts before the one returned all failed, and it succeeded or was the last |
| `ExecutionLogs.ExecutionLog.MarkStarted` | src/schedflow/core/log.py:69-71 | pending to running |
| `ExecutionLogs.ExecutionLog.MarkSucceeded` | src/schedflow/core/log.py:73-77 | running to succeeded, with the result |
| `ExecutionLogs.ExecutionLog.MarkFailed` | src/schedflow/core/log.py:79-83 | running to failed, with the error |
| `ExecutionLogs.ExecutionLog.MarkSkipped` | src/schedflow/core/log.py:85-87 | pending to skipped, with the reasons |
| `ExecutionLogs.ExecutionLog.Apply` | src/schedflow/core/workflow.py:287-302 | a result finishes the record of its node and touches no other |
| `TaskSpecs.MadeIsAcceptable` | src/schedflow/core/spec.py:45-89 | the constructor accepts its arguments if and only if the type is known and its own field is given, and keeps them |
| `TaskSpecs.SpecRoundTrip` | src/schedflow/core/spec.py:91-128 | a specification whose callable has a reference comes back from JSON in normal form, and its JSON is stable |
| `JsonFacts.SpecJsonExactly` | src/schedflow/core/spec.py:91-114 | the JSON form of a specification, key by key |
| `JsonFacts.RefusedExactly` | src/schedflow/core/spec.py:57-89 | which arguments the constructor refuses, type by type |
| `JsonFacts.MissingSpecKeys` | src/schedflow/core/spec.py:116-128 | what missing keys mean |
| `WorkflowJson.FlowFromJson` | src/schedflow/core/workflow.py:424-456 | rebuilds the workflow by replaying nodes and edges, or raises where a call raises |
| `WorkflowJson.ReplayRoundTrip` | src/schedflow/core/workflow.py:382-456 | replaying the JSON of any valid workflow raises nothing, `CycleError` included, and gives the same nodes, edges and order in normal form |
| `WorkflowJson.JsonIsStable` | src/schedflow/core/workflow.py:382-422 | writing, reading and writing gives the same JSON |
| `JsonFacts.FlowJsonExactly` | src/schedflow/core/workflow.py:382-422 | the JSON form keeps the identifiers, and lists the nodes and edges in their orders |
| `JsonFacts.NodeJsonExactly` | src/schedflow/core/workflow.py:389-405 | the JSON form of a node, key by key |
| `JsonFacts.EdgeJsonExactly` | src/schedflow/core/workflow.py:409-419 | the JSON form of an edge, key by key |
| `JsonFacts.MissingRetries` | src/schedflow/core/workflow.py:444 | a missing number of attempts is one |

## Left out

- Time zones with daylight saving, `fold`, and the retry of `CalendarIntervalTrigger` in a gap: one fixed offset only.
- Jitter and floating-point timestamps: no jitter, whole microseconds.
- Dates beyond year 9999 in interval and calendar interval triggers: the calendar is unbounded there. In the program a
  calendar interval that leaves year 9999 goes on retrying, because the error counts as a missing day.
- Negative interval components, and the model layer that converts arguments (pydantic).
- The date trigger and `from_crontab`: a comparison, and a split into five fields.
- Non-ASCII digits, letters and white space in cron texts.
- `coalesce` and `job_defaults`: stored but never read by the main loop.
- Interleavings inside one step of the scheduler: `_run_due_job`, `_on_job_finished` and each operation are atomic, and
  the executor reports each end once. Callbacks do not call the scheduler, and `submit` does not raise.
- Several stores and executors by alias, moving a job between stores, migration, and starting or shutting down the
  scheduler: one store and one executor.
- Stored jobs as shared objects: `MemoryJobStore` hands out the live job; in the model a job is a value, as in the
  stores that serialise it.
- The JSON form of jobs: Redis reads a paused job back with a run time computed anew. The codec is the identity here,
  and `get_all` is not part of the model.
- Execution logs in the stores, `run_job_now`, and task events.
- Schedulers.Scheduler.UpdateJob: does not move the job to another store, since there is one store.
- Schedulers.Scheduler.OnJobFinished: does not store the log or publish task events, and an end with neither a log nor
  an error, which no executor reports, is not modelled.
- ExecutionLogs.ExecutionLog.MarkStarted: does not record the start time, since clocks are not modelled.
- ExecutionLogs.ExecutionLog.MarkSucceeded: does not record the end time and the duration.
- ExecutionLogs.ExecutionLog.MarkFailed: does not record the end time and the duration.
- ExecutionLogs.ExecutionLog.Apply: does not call the success and failure callbacks, which are foreign code.
- The snapshot in the log and the conversion of a bare callable to a specification; tasks and conditions are total
  functions of their arguments, results have the same type as arguments.
- Records as shared objects: a log holds records as values.
- Arguments of a combining trigger other than the list and the jitter; what the models of plain triggers write and
  accept is a parameter.
- networkx: acyclicity is decided by the layering, which is proved right.
- Runners, subprocesses, executors' pools, the other stores, the web application and the command line.
