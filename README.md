# hpj_bot core, modelled in Dafny

hpj_bot is a head-pain journal bot. A user answers a short daily survey. The answers are stored per day. A weekly report gathers last week's answers, and old entries are marked for deletion after a retention window. Alarms remind users at a fixed time of day. A small scheduler fires these alarms. It keeps its jobs in Redis: a hash of job records and a sorted set of next fire times.

This project models the core of that system and proves properties of it:

- **Scheduler** (`scheduler.dfy`):
  - the recurrence arithmetic of a fire condition;
  - the job store (job hash plus runtimes index) under `add_job`, `remove_job` and one iteration of the processing loop (due ids in sorted-set order, orphans pruned, repeats re-scored);
  - the scheduler object that runs the loop.
- **Task records and Redis keys** (`redis_constants.dfy`, with `text.dfy` for Python's `str.split`, `str.join`, `str(int)` and `int(str)`):
  - the `;`-separated encoding of report and alarm tasks and its round trips;
  - the key naming scheme.
- **Alarm coordinator** (`worker.dfy`):
  - `nearest_weekday` and `create_start_date`;
  - `handle_alarm_task` over the per-channel subscriber sets, the alarm-to-job hash and the scheduler store. It is modelled both as written and as corrected; see Findings.
- **Survey engine** (`question_base.dfy`, `survey.dfy`):
  - the four question classes and `create_question`;
  - the survey's navigation stack, `reply`, `go_back` and `stop`.
- **Head-pain questions** (`hpj_questions.dfy`, with `calendar.dfy`):
  - the fifteen-question graph;
  - the `%d.%m` date check and the date suggestions.
- **Journal jobs** (`journal_jobs.dfy`):
  - the last-week window of the weekly report;
  - the retention window of `mark_entries_for_delete`.

Conventions:

- Time is in integer seconds and days are integer day numbers. Day 0 is Thursday, 1 January 1970.
- A clock reading is a parameter.
- Redis structures are maps and sets.

## Model

| member | source | states |
|---|---|---|
| Text.SplitJoin | webapp/core/redis/redis_constants.py:60-63 | splitting a `sep.join` of parts that hold no separator gives back exactly those parts |
| Text.JoinSplit | webapp/core/redis/redis_constants.py:81 | joining the pieces of `str.split` with the separator gives back the original string |
| Text.IntToStrRoundTrip | webapp/core/redis/redis_constants.py:82 | `int(str(i)) == i` for every integer, with `int` accepting whitespace, a sign and underscores between digits |
| Text.IntToStrChars | webapp/core/redis/redis_constants.py:62 | the decimal form of an integer never holds a character other than digits and `-` |
| Text.Strip | survey/survey.py:32 | the stripped answer is the piece of the answer after its leading whitespace; every character dropped before or after it is whitespace, and it neither starts nor ends with whitespace |
| Text.StripIdempotent | survey/survey.py:32 | stripping a stripped answer changes nothing |
| Text.StripUnchanged | survey/survey.py:32 | an answer that neither starts nor ends with whitespace is recorded unchanged |
| Text.Lower | survey/question_base.py:67 | lower-casing keeps the length and maps character by character; only ASCII, Latin-1 and basic Cyrillic capitals change (see Left out) |
| Text.Join | webapp/core/redis/redis_constants.py:61-63 | `sep.join`: the parts with the separator between neighbours; SplitJoin and JoinSplit tie it to `str.split` |
| Text.Split | webapp/core/redis/redis_constants.py:81 | `str.split` with one separator character gives at least one piece, and no piece holds the separator |
| Text.IntToStr | webapp/core/redis/redis_constants.py:62 | `str(int)` is non-empty, starts with a digit or `-` and ends with a digit; IntToStrRoundTrip and IntToStrChars state the rest |
| Text.ParseInt | webapp/core/redis/redis_constants.py:82 | `int(s)`: surrounding whitespace, an optional sign and an ASCII numeral with underscores between digits, `None` for the `ValueError`; IntToStrRoundTrip ties it to IntToStr |
| Scheduler.CeilDiv | webapp/workers/scheduler/scheduler.py:56 | `ceil(a / b)` is the integer q with `(q-1)*b < a <= q*b` (and the mirrored bounds for negative b) |
| Scheduler.NextFireTime | webapp/workers/scheduler/scheduler.py:47-57 | a start in the future is returned unchanged; with no interval or a zero interval a started job has no next time; otherwise the result lies on the start's grid, in `[date, date+interval)` for a positive interval and in `(date+interval, date]`, not before the start, for a negative one |
| Scheduler.NextFireAligned | webapp/workers/scheduler/scheduler.py:55-57 | the next fire time equals `date` exactly when `date - start` is a multiple of the interval |
| Scheduler.NextFireLeast | webapp/workers/scheduler/scheduler.py:55-57 | the next fire time is the least grid point at or after `date` |
| Scheduler.AddSpec | webapp/workers/scheduler/scheduler.py:136-143 | the store after `add_job`'s pipeline: the record under its id and the initial score; AddThenRemove, AddScheduledNotBeforeNow and CoveredPreserved state its properties |
| Scheduler.RemoveSpec | webapp/workers/scheduler/scheduler.py:148-157 | the store after `remove_job`: unchanged when the hash lacks the id, otherwise the id leaves hash and index; RemoveErases and RemoveKeepsOrphan state its properties |
| Scheduler.Prune | webapp/workers/scheduler/scheduler.py:186-191 | the index after `_get_jobs`: due ids without a record are dropped and every other entry is kept; TickPrunesOrphans states it |
| Scheduler.Repeat | webapp/workers/scheduler/scheduler.py:211-221 | the index after `_enqueue_job_repeat`: each job in turn re-scored at its next fire time or removed; RepeatAt, RepeatAbsent and RepeatAtIndex state its effect |
| Scheduler.TickRuntimes | webapp/workers/scheduler/scheduler.py:223-230 | the id-by-id description of one iteration, which TickEffect proves the loop equals; TickAdvances and TickFrame state its properties |
| Scheduler.Lookup | webapp/workers/scheduler/scheduler.py:185-194 | the records of the ids read, in order, skipping ids without a record; LookupAt, LookupFrom, LookupDistinct and LookupHas state its properties |
| Scheduler.AddThenRemove | webapp/workers/scheduler/scheduler.py:136-157 | adding a new job and then removing it restores both the hash and the index |
| Scheduler.RemoveKeepsOrphan | webapp/workers/scheduler/scheduler.py:148-151 | `remove_job` of an id absent from the hash leaves it in the index |
| Scheduler.RemoveErases | webapp/workers/scheduler/scheduler.py:148-157 | `remove_job` of a stored id deletes it from the hash and the index and touches no other id |
| Scheduler.AddScheduledNotBeforeNow | webapp/workers/scheduler/scheduler.py:139-142 | a new job's score is never before `now` unless its interval is negative, and a future start is its score |
| Scheduler.CoveredPreserved | webapp/workers/scheduler/scheduler.py:136-157 | if every indexed id has a record, that stays true after an add, a remove and a loop iteration |
| Scheduler.DueOrderDistinct | webapp/workers/scheduler/scheduler.py:179-181 | the due ids come out of the sorted set without repetition |
| Scheduler.TickPrunesOrphans | webapp/workers/scheduler/scheduler.py:186-191 | a due id with no record leaves the index |
| Scheduler.ExhaustedStaysInHash | webapp/workers/scheduler/scheduler.py:211-219 | a due job with no next fire time leaves the index but its record stays in the hash |
| Scheduler.TickAdvances | webapp/workers/scheduler/scheduler.py:211-219 | a due repeating job is re-scored after `date`, except when `date` is on its grid, where it stays due for the next iteration |
| Scheduler.TickFrame | webapp/workers/scheduler/scheduler.py:223-230 | an iteration never changes the hash, never adds an id to the index and keeps the score of every id that is not due |
| Scheduler.RepeatAt | webapp/workers/scheduler/scheduler.py:211-221 | after `_enqueue_job_repeat` each listed job's id carries its next fire time or is gone, and every other id is untouched |
| Scheduler.RepeatAbsent | webapp/workers/scheduler/scheduler.py:211-221 | an id that none of the jobs has keeps its entry, or its absence |
| Scheduler.RepeatAtIndex | webapp/workers/scheduler/scheduler.py:211-221 | for jobs with distinct ids, each job's id ends at its next fire time, or leaves when there is none |
| Scheduler.LookupAt | webapp/workers/scheduler/scheduler.py:185-194 | `_get_jobs` returns the stored records of the due ids, each once, skipping ids without a record |
| Scheduler.LookupStep | webapp/workers/scheduler/scheduler.py:187-194 | reading one more id appends its record, or nothing when it has none |
| Scheduler.LookupFrom | webapp/workers/scheduler/scheduler.py:185-194 | every returned job is the stored record of one of the ids read |
| Scheduler.LookupDistinct | webapp/workers/scheduler/scheduler.py:185-194 | distinct ids give jobs with distinct ids |
| Scheduler.LookupHas | webapp/workers/scheduler/scheduler.py:185-194 | every id read that has a record has its job among those returned |
| Scheduler.TickEffect | webapp/workers/scheduler/scheduler.py:223-230 | pruning then re-scoring the looked-up jobs gives the id-by-id description of one iteration |
| Scheduler.TickEffectDue | webapp/workers/scheduler/scheduler.py:223-230 | a due id with a record ends at its job's next fire time, or leaves the index |
| Scheduler.TickEffectRest | webapp/workers/scheduler/scheduler.py:223-230 | any other id keeps what pruning left of it |
| Scheduler.FirstOf | webapp/workers/scheduler/scheduler.py:179-181 | a non-empty set of indexed ids has a member before all the others, by score and then by member |
| Scheduler.BeforeTransitive | webapp/workers/scheduler/scheduler.py:179-181 | the sorted set's order is transitive |
| Scheduler.BeforeTotal | webapp/workers/scheduler/scheduler.py:179-181 | any two different indexed ids are ordered one way or the other |
| Scheduler.Scheduler.constructor | webapp/workers/scheduler/scheduler.py:104-111 | a scheduler starts inactive, with no running tasks, over a given store |
| Scheduler.Scheduler.AddJob | webapp/workers/scheduler/scheduler.py:116-146 | missing args and kwargs default to empty, a missing start to now; the record and its score are written together |
| Scheduler.Scheduler.RemoveJob | webapp/workers/scheduler/scheduler.py:148-159 | the store becomes `RemoveSpec` of the old store |
| Scheduler.Scheduler.Start | webapp/workers/scheduler/scheduler.py:161-165 | the scheduler becomes active |
| Scheduler.Scheduler.Stop | webapp/workers/scheduler/scheduler.py:167-169 | the scheduler becomes inactive |
| Scheduler.Scheduler.Shutdown | webapp/workers/scheduler/scheduler.py:171-176 | the scheduler is inactive and every running task has finished |
| Scheduler.Scheduler.RangeByScore | webapp/workers/scheduler/scheduler.py:179-181 | returns exactly the ids with score in `[0, date]`, ordered by score and then by member |
| Scheduler.Scheduler.ReadRecords | webapp/workers/scheduler/scheduler.py:185-196 | returns the records of the ids read, in order, and drops each id without a record from the index |
| Scheduler.Scheduler.GetJobs | webapp/workers/scheduler/scheduler.py:178-196 | returns the records of the due ids in index order and drops due ids without a record from the index |
| Scheduler.Scheduler.EnqueueJobRepeat | webapp/workers/scheduler/scheduler.py:211-221 | the index becomes `Repeat` of the old index over the jobs, in order |
| Scheduler.Scheduler.RunJob | webapp/workers/scheduler/scheduler.py:198-209 | the job becomes a running task under a fresh task number |
| Scheduler.Scheduler.TaskDone | webapp/workers/scheduler/scheduler.py:199-200 | the finished task leaves the running set |
| Scheduler.Scheduler.RunJobs | webapp/workers/scheduler/scheduler.py:227-228 | each job becomes a running task, numbered in order from the next free task number |
| Scheduler.Scheduler.Tick | webapp/workers/scheduler/scheduler.py:223-230 | one iteration: the due jobs start, in index order, and the index becomes `TickRuntimes` of the old store |
| Scheduler.Scheduler.ProcessJobs | webapp/workers/scheduler/scheduler.py:223-231 | while active, the store goes through one iteration per clock reading; an inactive scheduler changes nothing |
| RedisConstants.AlarmsUsersInjective | webapp/core/redis/redis_constants.py:26-30 | distinct (channel, time) pairs get distinct subscriber-set keys |
| RedisConstants.AlarmsUsersNotFixedKey | webapp/core/redis/redis_constants.py:15-30 | no subscriber-set key collides with the alarm-job hash or the alarm queue |
| RedisConstants.WebhooksUrlInjective | webapp/core/redis/redis_constants.py:32-34 | distinct channels get distinct webhook keys |
| RedisConstants.AlarmsUsers | webapp/core/redis/redis_constants.py:26-30 | the `alarms:{}:{}` key of a (channel, time) pair; AlarmsUsersInjective and AlarmsUsersNotFixedKey state its properties |
| RedisConstants.WebhooksUrl | webapp/core/redis/redis_constants.py:32-34 | the `webhooks:{}-url` key of a channel; WebhooksUrlInjective states its property |
| RedisConstants.IsTimeFmt | webapp/core/redis/redis_constants.py:107 | a time conforms to `%H:%M` exactly when ParseTime accepts it; AlarmFromStr and AlarmWorker.CreateStartDate are stated with it |
| RedisConstants.ReportToStr | webapp/core/redis/redis_constants.py:60-63 | `to_str` of a report: its six fields joined with `;`; ReportRoundTrip and ReportFieldsSplit state its properties |
| RedisConstants.AlarmToStr | webapp/core/redis/redis_constants.py:60-63 | `to_str` of an alarm: its four fields joined with `;`; AlarmRoundTrip and AlarmFieldsSplit state its properties |
| RedisConstants.ParseChannel | webapp/core/redis/redis_constants.py:83 | `Channel(s)` succeeds exactly on a channel's value and returns that channel |
| RedisConstants.ChannelRoundTrip | webapp/core/redis/redis_constants.py:83 | every channel parses back from its value |
| RedisConstants.ParseAction | webapp/core/redis/redis_constants.py:37-39 | `AlarmActions(s)` accepts exactly "add" and "delete" |
| RedisConstants.ActionRoundTrip | webapp/core/redis/redis_constants.py:104 | every action parses back from its value |
| RedisConstants.ParseRequester | webapp/core/redis/redis_constants.py:85 | `ReportRequester(s)` succeeds exactly on a requester's value |
| RedisConstants.RequesterRoundTrip | webapp/core/redis/redis_constants.py:85 | every requester parses back from its value |
| RedisConstants.ParseHour | webapp/core/redis/redis_constants.py:107 | an accepted hour field is one or two digits, and its value is the digits' value, below 24 |
| RedisConstants.ParseMinute | webapp/core/redis/redis_constants.py:107 | an accepted minute field is one or two digits, and its value is the digits' value, below 60 |
| RedisConstants.ParseTime | webapp/core/redis/redis_constants.py:107 | an accepted `%H:%M` time has hour < 24 and minute < 60 and holds only digits and `:` |
| RedisConstants.TimeFieldIff | webapp/core/redis/redis_constants.py:107 | the one-digit and zero-padded two-digit spellings of a value are exactly the one- or two-digit strings with that value |
| RedisConstants.ParseHourIff | webapp/core/redis/redis_constants.py:107 | `%H` reads a field as hour v exactly when v < 24 and the field spells v in one or two digits |
| RedisConstants.ParseMinuteIff | webapp/core/redis/redis_constants.py:107 | `%M` reads a field as minute v exactly when v < 60 and the field spells v in one or two digits |
| RedisConstants.FormattedTimeParses | webapp/core/redis/redis_constants.py:107 | every spelling of an hour below 24, a colon and a minute below 60 (`HH:MM`, `H:MM`, `HH:M`, `H:M`) parses back to that hour and minute |
| RedisConstants.ParsedTimeForm | webapp/core/redis/redis_constants.py:107 | conversely, a time that parses to (h, m) is a spelling of h, a colon and a spelling of m |
| RedisConstants.ReportFromStr | webapp/core/redis/redis_constants.py:78-91 | decoding succeeds exactly on six fields of the right kinds, and keeps the date fields as given |
| RedisConstants.AlarmFromStr | webapp/core/redis/redis_constants.py:100-113 | decoding succeeds exactly on four fields of the right kinds with a well-formed time |
| RedisConstants.ReportRoundTrip | webapp/core/redis/redis_constants.py:60-91 | `from_str(to_str(x)) == x` for every report whose dates hold no `;` |
| RedisConstants.ReportSepInDateRejected | webapp/core/redis/redis_constants.py:60-91 | a report whose dates hold a `;` does not survive the round trip |
| RedisConstants.AlarmRoundTrip | webapp/core/redis/redis_constants.py:60-113 | `from_str(to_str(x)) == x` for every alarm with a well-formed time |
| RedisConstants.ReportFieldsSplit | webapp/core/redis/redis_constants.py:60-63 | the encoding of a report splits into its six field strings |
| RedisConstants.AlarmFieldsSplit | webapp/core/redis/redis_constants.py:60-63 | the encoding of an alarm splits into its four field strings |
| RedisConstants.ReportFromFields | webapp/core/redis/redis_constants.py:78-91 | the six field strings of a report decode to that report |
| RedisConstants.AlarmFromFields | webapp/core/redis/redis_constants.py:100-113 | the four field strings of an alarm with a well-formed time decode to that alarm |
| RedisConstants.ReportDecodeNormalises | webapp/core/redis/redis_constants.py:78-91 | whatever decodes re-encodes to a string that decodes to the same report |
| RedisConstants.AlarmDecodeNormalises | webapp/core/redis/redis_constants.py:100-113 | whatever decodes re-encodes to a string that decodes to the same alarm |
| RedisConstants.EnumValuesHaveNoSep | webapp/core/redis/redis_constants.py:60-63 | no enum value holds the separator |
| RedisConstants.TimeFmtHasNoSep | webapp/core/redis/redis_constants.py:107 | a well-formed time holds no separator |
| AlarmWorker.NearestWeekday | webapp/workers/scheduler/worker.py:16-19 | the result is a whole number of days from now, within a week, on the requested weekday |
| AlarmWorker.NearestWeekdayFirst | webapp/workers/scheduler/worker.py:16-19 | no earlier whole-day offset falls on the requested weekday |
| AlarmWorker.CreateStartDate | webapp/workers/scheduler/worker.py:22-28 | defined exactly for a well-formed `%H:%M` time; the result is that time of day, within the next 24 hours |
| AlarmWorker.EightOClock | webapp/workers/scheduler/worker.py:23 | "08:00" is a well-formed time |
| AlarmWorker.HandleSpec | webapp/workers/scheduler/worker.py:31-52 | `handle_alarm_task` as written, with the per-channel `exists` check and the unawaited `remove_job`; HandleFailsOnlyOnBadTime, AddSchedulesOnNewKey, SubscriptionEffect, TwoChannelsTwoJobs and DeleteKeepsSchedulerJob state its properties |
| AlarmWorker.HandleFixedSpec | webapp/workers/scheduler/worker.py:31-52 | the corrected handler, with the all-channel check on add and an awaited removal on delete; FixedAddCoherent, FixedDeleteCoherent and FixedDeleteRemovesJob state its properties |
| AlarmWorker.SetsUpdated | webapp/workers/scheduler/worker.py:43-46 | `SADD` puts the member into its set and `SREM` takes it out; no set is left empty and no other set changes |
| AlarmWorker.SubscriptionEffect | webapp/workers/scheduler/worker.py:43-46 | add puts the channel id into its (channel, time) set, delete takes it out, and no other set changes |
| AlarmWorker.HandleFailsOnlyOnBadTime | webapp/workers/scheduler/worker.py:31-52 | handling fails exactly for an add whose time is malformed |
| AlarmWorker.AddSchedulesOnNewKey | webapp/workers/scheduler/worker.py:33-43 | an add on an empty set schedules a daily alarm job within the next day and records its id under the time |
| AlarmWorker.DeleteForgetsJobWhenLastLeaves | webapp/workers/scheduler/worker.py:45-52 | a delete forgets the time's job id exactly when no channel is left subscribed to that time |
| AlarmWorker.TwoChannelsTwoJobs | webapp/workers/scheduler/worker.py:32-41 | as written, subscribing two channels to the same time creates two scheduler jobs, and the hash keeps only the second |
| AlarmWorker.DeleteKeepsSchedulerJob | webapp/workers/scheduler/worker.py:51 | as written, deleting the last subscriber leaves the alarm job in the scheduler store |
| AlarmWorker.EmptyCoherent | webapp/workers/scheduler/worker.py:31-52 | an empty coordinator over a store without alarm jobs is coherent: one job per subscribed time, and every alarm job recorded |
| AlarmWorker.JoinCoherent | webapp/workers/scheduler/worker.py:43 | joining a time that already has subscribers keeps the coordinator coherent |
| AlarmWorker.FirstJoinCoherent | webapp/workers/scheduler/worker.py:33-43 | the first subscriber of a time, with a new daily job under a fresh id, keeps the coordinator coherent |
| AlarmWorker.NewJobRecorded | webapp/workers/scheduler/worker.py:34-41 | with the new job added and recorded, every alarm job is the one recorded for its time |
| AlarmWorker.FixedAddCoherent | webapp/workers/scheduler/worker.py:33-43 | the corrected add keeps the coordinator and the store coherent |
| AlarmWorker.LeaveCoherent | webapp/workers/scheduler/worker.py:45-47 | a member leaving a time that keeps other subscribers keeps the coordinator coherent |
| AlarmWorker.RecordedJobsRemain | webapp/workers/scheduler/worker.py:49-52 | once a time's job is removed, every other recorded job is still in the store and rings its time |
| AlarmWorker.RemainingJobsRecorded | webapp/workers/scheduler/worker.py:49-52 | once a time's job is removed, every remaining alarm job is still the one recorded for its time |
| AlarmWorker.LastLeaveCoherent | webapp/workers/scheduler/worker.py:45-52 | the last subscriber of a time leaving, with the time's job removed, keeps the coordinator coherent |
| AlarmWorker.FixedDeleteCoherent | webapp/workers/scheduler/worker.py:45-52 | the corrected delete keeps the coordinator and the store coherent |
| AlarmWorker.FixedDeleteRemovesJob | webapp/workers/scheduler/worker.py:49-52 | the corrected delete of the last subscriber removes the time's job from the store |
| AlarmWorker.AlarmCoordinator.HandleAlarmTask | webapp/workers/scheduler/worker.py:31-52 | the coordinator and the scheduler move as the as-written specification says, or stay unchanged on failure |
| AlarmWorker.AlarmCoordinator.HandleAlarmTaskFixed | webapp/workers/scheduler/worker.py:31-52 | the coordinator and the scheduler move as the corrected specification says, or stay unchanged on failure |
| Calendar.DaysInMonth | hpj_questions.py:49 | months have 28 to 31 days; February has 29 exactly in a leap year |
| Calendar.LeapMonthLongest | hpj_questions.py:47-54 | no month is longer than the same month of a leap year |
| Calendar.PrevDay | hpj_questions.py:59 | the day before a valid date is a valid date |
| Calendar.NextDay | hpj_questions.py:59 | the day after a valid date is a valid date |
| Calendar.PrevNextInverse | hpj_questions.py:59 | stepping a day back and forward returns to the same date |
| Calendar.PrevDayDiffers | hpj_questions.py:57-61 | yesterday has a different day-and-month from today |
| QuestionBase.SentinelCode | survey/question_base.py:7-8 | `SAME` is -1, `END` is -2, both negative and distinct |
| QuestionBase.ResolveNext | survey/question_base.py:37-38 | a callable `next_q` is called on the answer, any other value is returned as is |
| QuestionBase.ChooseKind | survey/question_base.py:103-112 | validations give a validated question; otherwise strict options give a strict question, options a plain option question, and nothing a base question |
| QuestionBase.FirstFailure | survey/question_base.py:87-90 | finds the first validation the answer fails, all earlier ones passing, or reports that all pass |
| QuestionBase.FirstFailureUnique | survey/question_base.py:87-90 | a failing validation with all earlier ones passing is the one the loop stops at |
| QuestionBase.StrictNote | survey/question_base.py:68 | the note of a rejected strict answer: the fixed prefix and the options joined with `, `; NoteOnlyOnRejection states when it is set |
| QuestionBase.MatchesOption | survey/question_base.py:67 | some option has the answer's lower-case form; StrictAcceptsIff and StrictIgnoresCase state its role |
| QuestionBase.Question.NoteAfter | survey/question_base.py:66-92 | the note after `reply`: the options note after a strict rejection, the failing validation's message after a validated rejection, else the old note; Question.Reply and NoteOnlyOnRejection are stated with it |
| QuestionBase.Question.Text | survey/question_base.py:51-55 | a non-empty note is shown on the line below the text; a base question shows only its text |
| QuestionBase.Question.Outcome | survey/question_base.py:66-92 | a strict question rejects an answer outside its options and a validated one rejects a failing answer, both with `SAME`; otherwise the base reply, which is all a base or plain option question ever gives |
| QuestionBase.Question.OptionsNow | survey/question_base.py:57-61 | a base question has no options (its `options`, lines 13-15, is empty); an option question's are its list, or what its callable gives for today |
| QuestionBase.Question.constructor | survey/question_base.py:43-49 | a new question has an empty note and no validations |
| QuestionBase.Question.AddValidation | survey/question_base.py:83-84 | validations are kept in the order they are added |
| QuestionBase.Question.Reply | survey/question_base.py:66-92 | returns `Outcome` and leaves the note `NoteAfter` says: the options list or the failing message after a rejection, unchanged otherwise |
| QuestionBase.CreateQuestion | survey/question_base.py:95-114 | builds a fresh question of the kind `ChooseKind` picks, with all validations in order |
| QuestionBase.StrictAcceptsIff | survey/question_base.py:66-71 | a strict question answers `SAME` exactly when the answer matches no option (or its `next_q` is `SAME`) |
| QuestionBase.StrictIgnoresCase | survey/question_base.py:67 | answers that differ only in case are accepted or rejected alike |
| QuestionBase.NoteOnlyOnRejection | survey/question_base.py:66-92 | an accepted answer leaves the note unchanged; a rejected strict answer sets the options note |
| QuestionBase.ValidatedIgnoresOptions | survey/question_base.py:86-92 | with every validation passing a validated question gives the base reply, whatever its options |
| QuestionBase.ValidationStopsAtFirst | survey/question_base.py:87-90 | validations after the first failure are never consulted |
| Survey.Move | survey/survey.py:18-29 | `SAME` keeps the survey, `END` finishes without remembering, a key or `None` becomes current and pushes the old key unless it is the same |
| Survey.Back | survey/survey.py:40-44 | `go_back` pops the last remembered key; with nothing remembered it stays |
| Survey.StopNav | survey/survey.py:46-47 | `stop` finishes and keeps the stack |
| Survey.Moves | survey/survey.py:18-29 | each reply pushes at most one key |
| Survey.BackUndoesMove | survey/survey.py:27-44 | moving to another key and going back restores the survey exactly |
| Survey.BackAfterEnd | survey/survey.py:23-44 | after `END`, going back skips the finished question |
| Survey.NoneIsResumable | survey/survey.py:27-44 | a `None` next question finishes the survey, and going back resumes the last question |
| Survey.SelfMoveIsNoop | survey/survey.py:27-29 | moving to the current key changes nothing |
| Survey.BacksUndoMoves | survey/survey.py:18-44 | after a walk through n keys, each different from the last, n steps back return to the start |
| Survey.BacksStopAtStart | survey/survey.py:40-44 | going back from the first question stays there however often it is repeated |
| Survey.GoBackScenario | tests/survey_test.py:21-35 | the walk 1, 2, 3 goes back to 2, then 1, then stays at 1; replying 2, rejected, 3 and then `END` finishes |
| Survey.Survey.constructor | survey/survey.py:8-12 | a survey starts at its first key with an empty stack and no replies |
| Survey.Survey.Current | survey/survey.py:14-16 | the current question is the one under the current key, if the table has it |
| Survey.Survey.IsOngoing | survey/survey.py:49-51 | `isongoing`: the current key names a question of the table; Survey.Survey.Stop ends it and Survey.Survey.Reply requires it |
| Survey.Survey.SetQuestion | survey/survey.py:18-29 | the navigation becomes `Move` of the old one |
| Survey.Survey.Reply | survey/survey.py:31-34 | the stripped answer is recorded under the current key, the question's reply moves the survey, and the question's note is updated |
| Survey.Survey.GoBack | survey/survey.py:40-44 | the navigation becomes `Back` of the old one and the replies stay |
| Survey.Survey.Stop | survey/survey.py:46-47 | the survey is no longer ongoing |
| HpjQuestions.Rank | hpj_questions.py:7-22 | the keys are numbered 0 to 14 in declaration order |
| HpjQuestions.AllKeysInOrder | hpj_questions.py:7-22 | the key list holds every key at its rank |
| HpjQuestions.KeyNameInjective | hpj_questions.py:7-22 | distinct keys have distinct string values |
| HpjQuestions.HadPainNext | hpj_questions.py:64-65 | "да" in any case leads to the first-notice question, anything else to the painkillers question |
| HpjQuestions.Successor | hpj_questions.py:68-116 | every question but the last leads to a question of higher rank; all but the headache question lead to the next in order |
| HpjQuestions.NextOfIsSuccessor | hpj_questions.py:72-114 | each question's `next_q` resolves to its successor's key, or `None` after the last |
| HpjQuestions.Walk | hpj_questions.py:68-116 | a path through the `next_q` graph, one answer per question whether or not the built question accepts it, starts at its first question |
| HpjQuestions.WalkIncreases | hpj_questions.py:68-116 | ranks strictly increase along any walk, so no question is asked twice |
| HpjQuestions.WalkEndsAtPainkillers | hpj_questions.py:111-113 | with enough answers every walk ends at the painkillers question |
| HpjQuestions.WalkYesVisitsAll | hpj_questions.py:68-116 | following `next_q` on "да" at every question passes all fifteen questions in order (a fact about the graph: the date question and most option questions reject "да") |
| HpjQuestions.WalkInOrder | hpj_questions.py:64-116 | any fourteen answers whose second is "да" lead through the `next_q` graph over all fifteen questions in order |
| HpjQuestions.WalkRanksFrom | hpj_questions.py:64-116 | while the headache question, if reached, is answered "да", each step of the graph goes to the next question in declaration order |
| HpjQuestions.AcceptedAnswerAccepted | hpj_questions.py:47-116 | each built question accepts its chosen answer (today's suggested date, its first option, or any text when it has no options) and moves on along its `next_q` |
| HpjQuestions.DateSuggestionAccepted | hpj_questions.py:47-76 | the date question accepts today's suggested date and asks about the headache |
| HpjQuestions.FirstOptionAccepted | hpj_questions.py:76-107 | a question with options accepts its first option and moves on along its `next_q` |
| HpjQuestions.AnyTextAccepted | hpj_questions.py:78-113 | a question without options or checks accepts any text and moves on along its `next_q` |
| HpjQuestions.AcceptedAnswers | hpj_questions.py:68-116 | fourteen answers, the `j`-th one accepted by the `j`-th question |
| HpjQuestions.WalkAcceptedVisitsAll | hpj_questions.py:68-116 | those accepted answers lead from the date question through all fifteen questions in order |
| HpjQuestions.AcceptedPathStep | hpj_questions.py:68-116 | along that path every built question accepts its answer and asks the next question in order; the painkillers question accepts and ends the survey, so every question is reachable through accepted answers |
| HpjQuestions.NoPainSkipsToEnd | hpj_questions.py:64-65 | in the `next_q` graph, `had_pain_next_q` sends any answer but "да" straight to the last question; of the answers the built question accepts, that is "Нет" (HadPainReplies), while an empty answer is asked again |
| HpjQuestions.DayField | hpj_questions.py:49 | an accepted `%d` field is a day from 1 to 31 |
| HpjQuestions.MonthField | hpj_questions.py:49 | an accepted `%m` field is a month from 1 to 12 |
| HpjQuestions.ParseDayMonth | hpj_questions.py:49 | an accepted `%d.%m` string gives a day 1-31 and a month 1-12 |
| HpjQuestions.IsDayMonth1900 | hpj_questions.py:47-54 | `validate_date` as written: the answer parses and its day exists in that month of 1900; FixedOnlyAddsLeapDay and LeapDaySuggestionRejected state its properties |
| HpjQuestions.IsDayMonthFixed | hpj_questions.py:47-54 | the corrected check: the day exists in that month of a leap year; FixedOnlyAddsLeapDay and SuggestionsAccepted state its properties |
| HpjQuestions.FixedOnlyAddsLeapDay | hpj_questions.py:47-54 | the corrected check accepts everything the original does and, beyond that, only 29 February |
| Text.Pad2 | hpj_questions.py:61 | `%d` and `%m` print a number below 100 as two digits that read back as that number |
| HpjQuestions.FormatDMParses | hpj_questions.py:47-61 | a formatted valid date reads back as its own day and month |
| HpjQuestions.FormatDM | hpj_questions.py:60-61 | `strftime('%d.%m')` of a date; FormatDMParses states that it reads back |
| HpjQuestions.SuggestDate | hpj_questions.py:57-61 | yesterday's and then today's `%d.%m`; SuggestionsAccepted, SuggestionsDistinct and LeapDaySuggestionRejected state its properties |
| HpjQuestions.SuggestionsAccepted | hpj_questions.py:47-61 | the corrected check accepts both suggested dates on every valid day |
| HpjQuestions.SuggestionsDistinct | hpj_questions.py:57-61 | the two suggestions, yesterday then today, are different strings |
| HpjQuestions.LeapDaySuggestionRejected | hpj_questions.py:47-61 | on 1 March 2024 "29.02" is suggested, and the original check rejects it |
| HpjQuestions.DateValidation | hpj_questions.py:47-54 | the date question's check is the corrected day-month check, with the format hint as its message; it differs from `validate_date` as written only on the 29th of February (see Left out) |
| HpjQuestions.KindOf | hpj_questions.py:72-114 | the date question is validated, questions with options are strict, the rest are base questions |
| HpjQuestions.QText | hpj_questions.py:28-44 | the `q_strings` text of each key; BuiltDescribes states that each built question carries it |
| HpjQuestions.OptionsOf | hpj_questions.py:70-114 | the options each key is built with, the yes/no list where the source uses it; KindOf, OptionsNeverRepeat and YesNoMatches state its properties |
| HpjQuestions.NextOf | hpj_questions.py:72-114 | the `next_q` each key is built with; NextOfIsSuccessor states where it leads |
| HpjQuestions.MakeQuestion | hpj_questions.py:72-114 | constructs a fresh strict question holding an entry's text, next question, options and checks, with no note |
| HpjQuestions.KindOfChosen | hpj_questions.py:72-114 | the class an entry's arguments choose is the validated one for the date, the strict one for a question with options, the plain one otherwise |
| HpjQuestions.BuiltDescribes | hpj_questions.py:72-114 | constructing a key's entry gives that key's question: its class, text, next question, options and checks |
| HpjQuestions.AddQuestions | hpj_questions.py:68-116 | for keys with distinct names, builds a fresh question from each key's entry under its name, and nothing else |
| HpjQuestions.NamesOfOnly | hpj_questions.py:72-115 | every name in the table comes from one of the keys |
| HpjQuestions.BuildQuestions | hpj_questions.py:68-116 | the table holds exactly the fifteen keys, each with its text, options, next question and checks; the date question carries the corrected check (see Left out) |
| HpjQuestions.GetHeadPainSurvey | hpj_questions.py:119-120 | the survey starts at the date question with nothing answered |
| HpjQuestions.NextNeverSame | hpj_questions.py:72-114 | no question's `next_q` yields `SAME` |
| HpjQuestions.OptionsNeverRepeat | hpj_questions.py:72-114 | every listed option of every question is accepted and leads on |
| HpjQuestions.DateQuestionReplies | hpj_questions.py:47-54 | the date question accepts exactly the answers the corrected check accepts and then asks about the headache; a rejection sets the format hint; on every answer but the 29th of February it decides as `validate_date` as written |
| HpjQuestions.YesNoMatches | hpj_questions.py:70 | "Да" and "Нет" match the yes/no options and the empty answer does not |
| HpjQuestions.HadPainReplies | hpj_questions.py:64-77 | "Да" leads to the first-notice question, "Нет" to the painkillers question, an empty answer is asked again |
| JournalJobs.IsoWeekday | jobs/workers.py:28 | weekdays run from 1 (Monday) to 7 (Sunday) |
| JournalJobs.IsoWeekdayNext | jobs/workers.py:28 | the weekday of the next day follows on, wrapping from Sunday to Monday |
| JournalJobs.LastSunday | jobs/workers.py:28 | last Sunday is the latest Sunday 1 to 7 days before today |
| JournalJobs.LastWeekDays | jobs/workers.py:29-32 | seven consecutive days ending at last Sunday, ascending |
| JournalJobs.LastWeek | jobs/workers.py:29-32 | the keys of those seven days, in order |
| JournalJobs.WeekEntries | jobs/workers.py:34-38 | last week's entries that are truthy; CreateWeeklyReport's loop is proved against it |
| JournalJobs.ReportFilename | journal_view/base_generator.py:17-18 | the `hpj_<period>.html` file name; CreateWeeklyReport states that the report carries it |
| JournalJobs.LastWeekIsMondayToSunday | jobs/workers.py:16-32 | the window runs Monday to Sunday, ends before today and starts at most 13 days back |
| JournalJobs.CreateWeeklyReport | jobs/workers.py:15-52 | the report holds exactly last week's non-empty entries; there is no file exactly when there are none; the period is the first and last key joined by "-", and the file name is derived from it |
| JournalJobs.PeriodSplits | jobs/workers.py:42 | the period splits back into the first and last day of the week |
| JournalJobs.KeysToSave | jobs/workers.py:64-67 | the kept keys are exactly the keys of today and the 59 days before it |
| JournalJobs.MarkEntriesForDelete | jobs/workers.py:55-72 | marks exactly the stored keys not kept, and skips the database call when there are none |
| JournalJobs.RecentKeysKept | jobs/workers.py:64-72 | the key of any of the last 60 days is never marked |
| JournalJobs.OldKeysMarked | jobs/workers.py:64-72 | a stored key that matches none of the last 60 days is always marked |
| JournalJobs.MarkIdempotent | jobs/workers.py:68-72 | once the marked keys are gone, nothing more is marked on the same day |
| JournalJobs.WeekKeysKept | jobs/workers.py:29-67 | last week's keys are always kept, so retention never removes an entry the weekly report needs |

## Left out

- Redis I/O and its effects:
  - The Redis client, pipelines and `MULTI` are left out. Each pipeline is modelled as one atomic update of the maps.
  - Pickling of jobs and the dynamic import of the job function are left out. A job's function is a `module:qualname` string.
- Runtime machinery:
  - The asyncio event loop, task creation, `sleep` and exceptions raised by tasks are left out. A running task is an entry in a map of task numbers.
  - Shutdown waiting for tasks is modelled as every task finishing.
  - The worker main loops, blocking pops and signal handling are left out.
- Time:
  - Time is integer seconds. `total_seconds()`, floats and `math.ceil` over floats are left out. Ceiling division over integers is exact, and with float sub-second times an exact alignment on the grid is rarer than the model suggests.
  - Time zones are left out: `tzinfo` replacement, `set_timezone` and the scheduler's offset.
  - One `now` serves every clock read of one operation. For example, `create_start_date` reads `today()` and `now()` separately.
  - `uuid4()` job ids are a fresh-id parameter.
- Unicode digits:
  - Text.ParseInt: does not model the non-ASCII digits Python's `int()` accepts. Only ASCII digits are digits.
  - HpjQuestions.DayField: does not model the non-ASCII second digit the `%d` pattern `[12]\d` accepts. Only ASCII digits are digits.
  - RedisConstants.ParseHour: does not model the non-ASCII decimal digits that the `%H` pattern `2[0-3]|[0-1]\d|\d` accepts, so "١٢" is rejected here. Only ASCII digits are digits.
  - RedisConstants.ParseMinute: does not model the non-ASCII decimal digits that the `%M` pattern `[0-5]\d|\d` accepts. Only ASCII digits are digits.
  - RedisConstants.ParseTime, RedisConstants.IsTimeFmt, RedisConstants.AlarmFromStr and AlarmWorker.CreateStartDate inherit this, and RedisConstants.ParseHourIff, RedisConstants.ParseMinuteIff and RedisConstants.ParsedTimeForm describe ASCII spellings only: a time such as "١٢:٠٠" is rejected here, while `from_str` and `create_start_date` accept it.
- Unicode case:
  - Text.Lower: lower-cases only ASCII `A`-`Z`, Latin-1 `À`-`Þ` except `×`, and Cyrillic U+0400-U+042F. Python's `str.lower()` covers all of Unicode: it maps Greek "Σ" to "σ", and "İ" to two characters. Every other character is left as is here.
  - QuestionBase.MatchesOption: inherits this, so option "Σ" does not match "σ" here, while `StrictOptionQuestion.reply` accepts it.
  - QuestionBase.Question.Outcome: inherits this through MatchesOption, and so do QuestionBase.Question.Reply, QuestionBase.StrictAcceptsIff and QuestionBase.StrictIgnoresCase. The head-pain options are all Cyrillic, so the built survey and HpjQuestions.HadPainNext are unaffected.
- The date check of the head-pain survey:
  - HpjQuestions.DateValidation: the survey is modelled with the corrected check IsDayMonthFixed. `validate_date` as written (IsDayMonth1900) rejects "29.02", because `strptime` assumes the year 1900. The two checks differ on no other answer (FixedOnlyAddsLeapDay). See Findings.
  - HpjQuestions.BuildQuestions: the date question carries the corrected check, not `validate_date` as written, so the built survey accepts "29.02".
  - HpjQuestions.DateQuestionReplies: accepts "29.02", which `validate_date` as written rejects; on every other answer it states the as-written decision too.
- Names this version of the repository does not define:
  - `TIME_FMT`, imported from `common.constants`, is not defined there. It is taken to be `%H:%M`, the format `create_start_date` uses.
  - `ReportRequester`, imported from `common.constants`, is not defined there. Its values are taken to be "channel" and "webapp", the two members `tg_bot/handlers/webhooks.py:53` and `tg_bot/handlers/webhooks.py:68` compare against.
  - `Channel` is defined in `common/constants.py:16-20`, with the values "telegram", "discord" and "whatsapp" that the model uses.
- Stale names in `webapp/workers/scheduler/worker.py`:
  - It calls `rk.alarm_users` and `rk.alarms_jobs` and imports `webapp.workers.redis_constants`. None of these names exist in the repository.
  - The model uses `RedisKeys.alarms_users`, the `alarms:jobs` hash and `webapp/core/redis/redis_constants.py`.
- AlarmWorker.HandleSpec: the delete branch does not remove the job from the scheduler, because `scheduler.remove_job` is called without `await` and so never runs. A missing entry in the alarm-job hash (`hget` giving `None`) is therefore harmless as written.
- Question API used by the head-pain questions:
  - `hpj_questions.py` builds questions with a `QuestionBase(text, next_q, options, validators, suggestions)` API that is not part of this model. It is mapped onto `create_question`:
    - validators become a validated question whose message is the format hint;
    - options become a strict question;
    - suggestions become options computed from the current date.
  - `validate_date` writes the hint into the question's note itself. Here the validated question does that.
  - `had_pain_next_q` takes the question as a first argument that it never uses; it is modelled on the answer alone.
- Dates:
  - Calendar.PrevDay: does not model Python's year range 1 to 9999. Years are unbounded, so the day before 1 January of year 1 exists here.
- QuestionBase.Question.Reply: a validation whose message is `None` leaves the note empty, as the empty string. The `text` property treats both alike.
- Survey.Survey.Reply: requires a current question. In the source, replying to a finished survey raises `AttributeError` after recording the answer under `None`.
- Stale calls in `jobs/workers.py`:
  - It calls `db.read_entries` with its arguments swapped.
  - It constructs `HTMLGenerator` with an argument the class does not take.
  - It calls a `generate` method that the class names `generate_file`.
  - It imports `Questions` from `hpj_questions` (`jobs/workers.py:6`) and calls `Questions.to_dict()` (`jobs/workers.py:48`). `hpj_questions.py` defines no `Questions`, so as written the module fails at import.
  - The model follows the evident intent:
    - the entries are a map parameter;
    - the rendered file is the map of entries it is rendered from;
    - the question dictionary passed to the template is left out;
    - the file name is `hpj_<period>.html`.
- Key format and retention:
  - JournalJobs.KeysToSave: the key format `%d.%m` is a parameter `keyOf`. Keys carry no year, so an entry from a year ago whose day-and-month matches a recent day is kept.
  - `DAYS_TO_STORE` is 60, as in `tg_bot/constants.py:30`.
- `drop_entries` is a single database call and is not modelled.

## Findings

| source | as written | input that shows it | evidently intended | confidence | as-written member | corrected member |
|---|---|---|---|---|---|---|
| webapp/workers/scheduler/worker.py:32-41 | an add schedules a new daily job whenever the set of its own channel and time is empty | Telegram then Discord subscribe to "08:00": two jobs fire at 08:00, and the hash remembers only the second | one job per alarm time, created only when no channel is subscribed to that time | high (not executed) | AlarmWorker.TwoChannelsTwoJobs | AlarmWorker.FixedAddCoherent |
| webapp/workers/scheduler/worker.py:51 | `scheduler.remove_job(job_id)` is not awaited, so the job stays in the scheduler | the last subscriber of "08:00" unsubscribes: the hash entry goes, the alarm job keeps firing daily | the alarm job leaves the scheduler store when its last subscriber leaves | high (not executed) | AlarmWorker.DeleteKeepsSchedulerJob | AlarmWorker.FixedDeleteRemovesJob |
| hpj_questions.py:47-54 | `strptime(answer, '%d.%m')` fills in the year 1900, which is not a leap year, so "29.02" is rejected | on 29 February or 1 March 2024 the date question suggests "29.02", and choosing it is refused | accept every real day-and-month, at least every date the question suggests | high (not executed) | HpjQuestions.LeapDaySuggestionRejected | HpjQuestions.SuggestionsAccepted |
