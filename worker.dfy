/**
 * The alarm worker: the day arithmetic that places a daily alarm job, and the
 * coordinator that keeps, for each (channel, alarm time), the set of channel
 * members subscribed, the alarm-jobs hash (alarm time -> job id) and one
 * daily scheduler job per alarm time. Times are whole seconds of local time;
 * a store set exists exactly when it is non-empty.
 */
module AlarmWorker {
  import opened Opt
  import opened Text
  import opened RedisConstants
  import opened Scheduler

  // ---------------------------------------------------------------------------
  // Day arithmetic
  // ---------------------------------------------------------------------------

  const Day: int := 86400

  /** `datetime.weekday()` of the instant `t` (Monday is 0; day 0 of the epoch was a Thursday). */
  function Weekday(t: int): int {
    (t / Day + 3) % 7
  }

  lemma {:induction false} DayShift(t: int, n: int)
    ensures (t + n * Day) / Day == t / Day + n
    ensures (t + n * Day) % Day == t % Day
  {
    var q := t / Day;
    assert t == q * Day + t % Day;
    assert t + n * Day == (q + n) * Day + t % Day;
  }

  /**
   * `nearest_weekday(day)`: now moved forward by whole days, less than a week,
   * onto the first instant whose weekday is `day`.
   */
  function NearestWeekday(day: int, now: int): (r: int)
    ensures now <= r < now + 7 * Day && (r - now) % Day == 0
    ensures Weekday(r) == day % 7
  {
    var d := (day - Weekday(now)) % 7;
    DayShift(now, d);
    assert (d * Day) % Day == 0 by { DayShift(0, d); }
    now + d * Day
  }

  /** No earlier whole-day step from now falls on the requested weekday. */
  lemma NearestWeekdayFirst(day: int, now: int, n: int)
    requires 0 <= n && now + n * Day < NearestWeekday(day, now)
    ensures Weekday(now + n * Day) != day % 7
  {
    var d := (day - Weekday(now)) % 7;
    DayShift(now, n);
    DayShift(now, d);
    MulCancel(n, d, Day);
  }

  /**
   * `create_start_date(time)`: today at `time` ("%H:%M"), or tomorrow at that
   * time when now is already past it; `None` stands for the `ValueError` of a
   * malformed time.
   */
  function CreateStartDate(time: string, now: int): (r: Option<int>)
    ensures r.Some? <==> IsTimeFmt(time)
    ensures r.Some? ==> now <= r.value < now + Day
    ensures r.Some? ==> r.value % Day == ParseTime(time).value.0 * 3600 + ParseTime(time).value.1 * 60
  {
    match ParseTime(time)
    case None => None
    case Some((h, m)) =>
      var midnight := now - now % Day;
      var start := midnight + h * 3600 + m * 60;
      DayShift(h * 3600 + m * 60, now / Day);
      DayShift(h * 3600 + m * 60, now / Day + 1);
      Some(if now > start then start + Day else start)
  }

  // ---------------------------------------------------------------------------
  // The coordinator's state
  // ---------------------------------------------------------------------------

  /** Reference of the job function every alarm job runs. */
  const AlarmTaskFunc: string := "webapp.workers.scheduler.tasks:alarm_task"

  /**
   * A subscriber set is addressed by its channel and alarm time; its store key
   * is `AlarmsUsers(channel, time)`, which names distinct pairs distinctly
   * (`RedisConstants.AlarmsUsersInjective`).
   */
  type SetKey = (Channel, string)

  /** The store entries the coordinator owns: the subscriber sets and the alarm-jobs hash. */
  datatype AlarmState = AlarmState(sets: map<SetKey, set<int>>, alarmJobs: map<string, JobId>)

  /** A set that would become empty is deleted by the store. */
  predicate NoEmptySets(st: AlarmState) {
    forall k :: k in st.sets ==> st.sets[k] != {}
  }

  /** `EXISTS` on the subscriber sets of every channel at time `t`. */
  predicate AnySubscribed(st: AlarmState, t: string) {
    (Telegram, t) in st.sets || (Discord, t) in st.sets || (Whatsapp, t) in st.sets
  }

  /** `SADD`. */
  function SAdd(sets: map<SetKey, set<int>>, k: SetKey, x: int): map<SetKey, set<int>> {
    sets[k := (if k in sets then sets[k] else {}) + {x}]
  }

  /** `SREM`: a set left empty stops existing. */
  function SRem(sets: map<SetKey, set<int>>, k: SetKey, x: int): map<SetKey, set<int>> {
    if k !in sets then sets
    else if sets[k] - {x} == {} then sets - {k}
    else sets[k := sets[k] - {x}]
  }

  /** The daily job that rings the alarm at `t`. */
  function AlarmJob(id: JobId, t: string, start: int): Job {
    Job(id, AlarmTaskFunc, [t], map[], FireCondition(start, Some(Day)))
  }

  predicate IsAlarmJobFor(j: Job, t: string) {
    j.func == AlarmTaskFunc && j.args == [t]
  }

  /**
   * `handle_alarm_task` as written: an Add creates a job when the set of the
   * record's own channel does not exist yet; a Delete forgets the alarm's job
   * once no channel has subscribers at that time, but the removal it requests
   * from the scheduler is never awaited, so the scheduler store is left as is.
   * `None`: the alarm time does not parse and nothing was written.
   */
  function HandleSpec(st: AlarmState, sch: Store, info: AlarmTaskInfo, newId: JobId, now: int): Option<(AlarmState, Store)>
  {
    var key := (info.channel, info.alarm);
    match info.action
    case Add =>
      if key !in st.sets then
        match CreateStartDate(info.alarm, now)
        case None => None
        case Some(start) =>
          var job := AlarmJob(newId, info.alarm, start);
          Some((AlarmState(SAdd(st.sets, key, info.channelId), st.alarmJobs[info.alarm := newId]), AddSpec(sch, job, now)))
      else
        Some((AlarmState(SAdd(st.sets, key, info.channelId), st.alarmJobs), sch))
    case Delete =>
      var st' := AlarmState(SRem(st.sets, key, info.channelId), st.alarmJobs);
      if !AnySubscribed(st', info.alarm) then
        Some((AlarmState(st'.sets, st'.alarmJobs - {info.alarm}), sch))
      else
        Some((st', sch))
  }

  /**
   * The intended behaviour: a job is created when no channel has subscribers
   * at that time yet, and the alarm's job is removed from the scheduler when
   * the last subscriber of that time leaves.
   */
  function HandleFixedSpec(st: AlarmState, sch: Store, info: AlarmTaskInfo, newId: JobId, now: int): Option<(AlarmState, Store)>
  {
    var key := (info.channel, info.alarm);
    match info.action
    case Add =>
      if !AnySubscribed(st, info.alarm) then
        match CreateStartDate(info.alarm, now)
        case None => None
        case Some(start) =>
          var job := AlarmJob(newId, info.alarm, start);
          Some((AlarmState(SAdd(st.sets, key, info.channelId), st.alarmJobs[info.alarm := newId]), AddSpec(sch, job, now)))
      else
        Some((AlarmState(SAdd(st.sets, key, info.channelId), st.alarmJobs), sch))
    case Delete =>
      var st' := AlarmState(SRem(st.sets, key, info.channelId), st.alarmJobs);
      if !AnySubscribed(st', info.alarm) then
        var sch' := if info.alarm in st.alarmJobs then RemoveSpec(sch, st.alarmJobs[info.alarm]) else sch;
        Some((AlarmState(st'.sets, st'.alarmJobs - {info.alarm}), sch'))
      else
        Some((st', sch))
  }

  // ---------------------------------------------------------------------------
  // Properties shared by both versions
  // ---------------------------------------------------------------------------

  /**
   * What an Add or a Delete does to the subscriber sets: an Add always leaves
   * the member in its set, a Delete always takes it out, no set is left
   * empty, and every other set is untouched.
   */
  ghost predicate SubscriptionUpdated(st: AlarmState, st': AlarmState, info: AlarmTaskInfo) {
    var key := (info.channel, info.alarm);
    && NoEmptySets(st')
    && (info.action == Add ==> key in st'.sets && info.channelId in st'.sets[key])
    && (info.action == Delete ==> key !in st'.sets || info.channelId !in st'.sets[key])
    && (forall k :: k != key ==> (k in st'.sets <==> k in st.sets) && (k in st.sets ==> st'.sets[k] == st.sets[k]))
  }

  /** `SADD` and `SREM` update the subscriber sets as an Add and a Delete should. */
  lemma SetsUpdated(st: AlarmState, st': AlarmState, info: AlarmTaskInfo)
    requires NoEmptySets(st)
    requires info.action == Add ==> st'.sets == SAdd(st.sets, (info.channel, info.alarm), info.channelId)
    requires info.action == Delete ==> st'.sets == SRem(st.sets, (info.channel, info.alarm), info.channelId)
    ensures SubscriptionUpdated(st, st', info)
  {
  }

  lemma SubscriptionEffect(st: AlarmState, sch: Store, info: AlarmTaskInfo, newId: JobId, now: int)
    requires NoEmptySets(st)
    ensures HandleSpec(st, sch, info, newId, now).Some? ==>
      SubscriptionUpdated(st, HandleSpec(st, sch, info, newId, now).value.0, info)
    ensures HandleFixedSpec(st, sch, info, newId, now).Some? ==>
      SubscriptionUpdated(st, HandleFixedSpec(st, sch, info, newId, now).value.0, info)
  {
    if HandleSpec(st, sch, info, newId, now).Some? {
      SetsUpdated(st, HandleSpec(st, sch, info, newId, now).value.0, info);
    }
    if HandleFixedSpec(st, sch, info, newId, now).Some? {
      SetsUpdated(st, HandleFixedSpec(st, sch, info, newId, now).value.0, info);
    }
  }

  /** An Add fails only on a malformed time, and only when it would have created a job. */
  lemma HandleFailsOnlyOnBadTime(st: AlarmState, sch: Store, info: AlarmTaskInfo, newId: JobId, now: int)
    ensures HandleSpec(st, sch, info, newId, now).None? <==>
      info.action == Add && (info.channel, info.alarm) !in st.sets && !IsTimeFmt(info.alarm)
    ensures HandleFixedSpec(st, sch, info, newId, now).None? <==>
      info.action == Add && !AnySubscribed(st, info.alarm) && !IsTimeFmt(info.alarm)
  {
  }

  /**
   * As written, an Add schedules a new daily job exactly when its own
   * channel's set did not exist; the job starts at the next occurrence of the
   * alarm time and the hash points at it.
   */
  lemma AddSchedulesOnNewKey(st: AlarmState, sch: Store, info: AlarmTaskInfo, newId: JobId, now: int)
    requires info.action == Add && IsTimeFmt(info.alarm)
    ensures HandleSpec(st, sch, info, newId, now).Some?
    ensures var r := HandleSpec(st, sch, info, newId, now).value;
      if (info.channel, info.alarm) in st.sets then r.1 == sch && r.0.alarmJobs == st.alarmJobs
      else
        && r.1.jobs == sch.jobs[newId := AlarmJob(newId, info.alarm, CreateStartDate(info.alarm, now).value)]
        && r.0.alarmJobs == st.alarmJobs[info.alarm := newId]
        && now <= r.1.runtimes[newId] < now + Day
  {
    var start := CreateStartDate(info.alarm, now).value;
    assert NextFireTime(FireCondition(start, Some(Day)), now) == if start > now then Some(start) else Some(now);
  }

  /** A Delete forgets the alarm's job id exactly when no channel is left subscribed at that time. */
  lemma DeleteForgetsJobWhenLastLeaves(st: AlarmState, sch: Store, info: AlarmTaskInfo, newId: JobId, now: int)
    requires info.action == Delete
    ensures HandleSpec(st, sch, info, newId, now).Some?
    ensures var r := HandleSpec(st, sch, info, newId, now).value;
      && (info.alarm in r.0.alarmJobs <==> info.alarm in st.alarmJobs && AnySubscribed(r.0, info.alarm))
      && (forall t :: t != info.alarm ==> (t in r.0.alarmJobs <==> t in st.alarmJobs))
  {
  }

  // ---------------------------------------------------------------------------
  // The two defects of the code as written, and the corrected version
  // ---------------------------------------------------------------------------

  const Empty: AlarmState := AlarmState(map[], map[])

  lemma EightOClock()
    ensures IsTimeFmt("08:00")
  {
    var s := "08:00";
    assert s[1] == '8' && s[2] == ':';
    assert s[..2] == "08" && s[3..] == "00";
    assert "08"[..1] == "0" && "00"[..1] == "0";
    assert DigitsValue("0") == 0;
    assert DigitsValue("08") == 8 && DigitsValue("00") == 0;
    assert ParseHour("08") == Some(8) && ParseMinute("00") == Some(0);
  }

  /**
   * Two channels subscribing to the same time create two daily jobs for it,
   * and the alarm-jobs hash keeps only the second: every alarm at that time
   * then rings twice, and the first job can no longer be found.
   */
  lemma TwoChannelsTwoJobs(sch: Store, id1: JobId, id2: JobId, now: int)
    requires id1 != id2
    ensures HandleSpec(Empty, sch, AlarmTaskInfo(Add, Telegram, 1, "08:00"), id1, now).Some?
    ensures var a := HandleSpec(Empty, sch, AlarmTaskInfo(Add, Telegram, 1, "08:00"), id1, now).value;
      && HandleSpec(a.0, a.1, AlarmTaskInfo(Add, Discord, 2, "08:00"), id2, now).Some?
      && var b := HandleSpec(a.0, a.1, AlarmTaskInfo(Add, Discord, 2, "08:00"), id2, now).value;
      && id1 in b.1.jobs && IsAlarmJobFor(b.1.jobs[id1], "08:00")
      && id2 in b.1.jobs && IsAlarmJobFor(b.1.jobs[id2], "08:00")
      && b.0.alarmJobs["08:00"] == id2
  {
    EightOClock();
  }

  /**
   * Once the last subscriber of a time leaves, the code as written forgets the
   * job id but the scheduler keeps the job, so it goes on firing every day.
   */
  lemma DeleteKeepsSchedulerJob(st: AlarmState, sch: Store, info: AlarmTaskInfo, newId: JobId, now: int)
    requires info.action == Delete && info.alarm in st.alarmJobs && st.alarmJobs[info.alarm] in sch.jobs
    requires !AnySubscribed(AlarmState(SRem(st.sets, (info.channel, info.alarm), info.channelId), st.alarmJobs), info.alarm)
    ensures HandleSpec(st, sch, info, newId, now).Some?
    ensures var r := HandleSpec(st, sch, info, newId, now).value;
      st.alarmJobs[info.alarm] in r.1.jobs && info.alarm !in r.0.alarmJobs
  {
  }

  /**
   * The coordinator's invariant: an alarm time has a recorded job exactly when
   * some channel is subscribed at that time; the recorded job is in the
   * scheduler and rings that time; and it is the only alarm job for that time.
   */
  ghost predicate Coherent(st: AlarmState, sch: Store) {
    && NoEmptySets(st)
    && (forall t :: t in st.alarmJobs <==> AnySubscribed(st, t))
    && (forall t :: t in st.alarmJobs ==>
          st.alarmJobs[t] in sch.jobs && IsAlarmJobFor(sch.jobs[st.alarmJobs[t]], t))
    && (forall id :: id in sch.jobs && sch.jobs[id].func == AlarmTaskFunc && |sch.jobs[id].args| == 1 ==>
          sch.jobs[id].args[0] in st.alarmJobs && st.alarmJobs[sch.jobs[id].args[0]] == id)
  }

  lemma EmptyCoherent(sch: Store)
    requires forall id :: id in sch.jobs ==> sch.jobs[id].func != AlarmTaskFunc
    ensures Coherent(Empty, sch)
  {
  }

  /** Joining a time that already has subscribers keeps the coordinator coherent. */
  lemma JoinCoherent(st: AlarmState, sch: Store, k: SetKey, x: int)
    requires Coherent(st, sch) && AnySubscribed(st, k.1)
    ensures Coherent(AlarmState(SAdd(st.sets, k, x), st.alarmJobs), sch)
  {
    var st' := AlarmState(SAdd(st.sets, k, x), st.alarmJobs);
    assert forall t :: AnySubscribed(st', t) <==> AnySubscribed(st, t);
  }

  /** The first subscriber of a time, with its new job under a fresh id, keeps the coordinator coherent. */
  lemma FirstJoinCoherent(st: AlarmState, sch: Store, k: SetKey, x: int, newId: JobId, start: int, now: int)
    requires Coherent(st, sch) && !AnySubscribed(st, k.1) && newId !in sch.jobs
    ensures Coherent(AlarmState(SAdd(st.sets, k, x), st.alarmJobs[k.1 := newId]), AddSpec(sch, AlarmJob(newId, k.1, start), now))
  {
    var t0 := k.1;
    var st' := AlarmState(SAdd(st.sets, k, x), st.alarmJobs[t0 := newId]);
    var sch' := AddSpec(sch, AlarmJob(newId, t0, start), now);
    assert forall t :: t != t0 ==> (AnySubscribed(st', t) <==> AnySubscribed(st, t));
    assert AnySubscribed(st', t0) by {
      assert k in st'.sets;
      match k.0
      case Telegram =>
      case Discord =>
      case Whatsapp =>
    }
    assert t0 !in st.alarmJobs;
    NewJobRecorded(st, sch, t0, newId, start, now);
  }

  /** With a fresh job added for `t0` and recorded, every alarm job is the one recorded for its time. */
  lemma NewJobRecorded(st: AlarmState, sch: Store, t0: string, newId: JobId, start: int, now: int)
    requires Coherent(st, sch) && newId !in sch.jobs && t0 !in st.alarmJobs
    ensures var sch' := AddSpec(sch, AlarmJob(newId, t0, start), now);
      var jobs' := st.alarmJobs[t0 := newId];
      forall id :: id in sch'.jobs && sch'.jobs[id].func == AlarmTaskFunc && |sch'.jobs[id].args| == 1 ==>
        sch'.jobs[id].args[0] in jobs' && jobs'[sch'.jobs[id].args[0]] == id
  {
    var sch' := AddSpec(sch, AlarmJob(newId, t0, start), now);
    forall id | id in sch'.jobs && id != newId
      ensures sch'.jobs[id] == sch.jobs[id]
    {
    }
  }

  /** A member leaving a time that keeps other subscribers keeps the coordinator coherent. */
  lemma LeaveCoherent(st: AlarmState, sch: Store, k: SetKey, x: int)
    requires Coherent(st, sch) && AnySubscribed(AlarmState(SRem(st.sets, k, x), st.alarmJobs), k.1)
    ensures Coherent(AlarmState(SRem(st.sets, k, x), st.alarmJobs), sch)
  {
    var st' := AlarmState(SRem(st.sets, k, x), st.alarmJobs);
    assert forall t :: t != k.1 ==> (AnySubscribed(st', t) <==> AnySubscribed(st, t));
  }

  /** After the time `t0` loses its last subscriber and its job, every other recorded job is still in place. */
  lemma RecordedJobsRemain(st: AlarmState, sch: Store, t0: string, jobs': map<string, JobId>)
    requires Coherent(st, sch) && t0 in st.alarmJobs && jobs' == st.alarmJobs - {t0}
    ensures forall t :: t in jobs' ==>
      jobs'[t] in RemoveSpec(sch, st.alarmJobs[t0]).jobs && IsAlarmJobFor(RemoveSpec(sch, st.alarmJobs[t0]).jobs[jobs'[t]], t)
  {
    forall t | t in jobs'
      ensures jobs'[t] in RemoveSpec(sch, st.alarmJobs[t0]).jobs
    {
      assert st.alarmJobs[t] != st.alarmJobs[t0] by {
        assert sch.jobs[st.alarmJobs[t]].args == [t];
        assert sch.jobs[st.alarmJobs[t0]].args == [t0];
      }
    }
  }

  /** After the time `t0` loses its last subscriber and its job, every remaining alarm job is still recorded. */
  lemma RemainingJobsRecorded(st: AlarmState, sch: Store, t0: string, jobs': map<string, JobId>)
    requires Coherent(st, sch) && t0 in st.alarmJobs && jobs' == st.alarmJobs - {t0}
    ensures var sch' := RemoveSpec(sch, st.alarmJobs[t0]);
      forall id :: id in sch'.jobs && sch'.jobs[id].func == AlarmTaskFunc && |sch'.jobs[id].args| == 1 ==>
        sch'.jobs[id].args[0] in jobs' && jobs'[sch'.jobs[id].args[0]] == id
  {
  }

  /** The last subscriber of a time leaving, with the time's job removed, keeps the coordinator coherent. */
  lemma LastLeaveCoherent(st: AlarmState, sch: Store, k: SetKey, x: int)
    requires Coherent(st, sch) && !AnySubscribed(AlarmState(SRem(st.sets, k, x), st.alarmJobs), k.1)
    ensures Coherent(AlarmState(SRem(st.sets, k, x), st.alarmJobs - {k.1}),
                     if k.1 in st.alarmJobs then RemoveSpec(sch, st.alarmJobs[k.1]) else sch)
  {
    var t0 := k.1;
    var st' := AlarmState(SRem(st.sets, k, x), st.alarmJobs - {t0});
    assert forall t :: t != t0 ==> (AnySubscribed(st', t) <==> AnySubscribed(st, t));
    if t0 in st.alarmJobs {
      RecordedJobsRemain(st, sch, t0, st'.alarmJobs);
      RemainingJobsRecorded(st, sch, t0, st'.alarmJobs);
    } else {
      assert st'.alarmJobs == st.alarmJobs;
    }
  }

  /** The corrected Add keeps the coordinator coherent, given a fresh job id. */
  lemma FixedAddCoherent(st: AlarmState, sch: Store, info: AlarmTaskInfo, newId: JobId, now: int)
    requires Coherent(st, sch) && newId !in sch.jobs && info.action == Add
    requires HandleFixedSpec(st, sch, info, newId, now).Some?
    ensures Coherent(HandleFixedSpec(st, sch, info, newId, now).value.0, HandleFixedSpec(st, sch, info, newId, now).value.1)
  {
    var key := (info.channel, info.alarm);
    if AnySubscribed(st, info.alarm) {
      JoinCoherent(st, sch, key, info.channelId);
    } else {
      FirstJoinCoherent(st, sch, key, info.channelId, newId, CreateStartDate(info.alarm, now).value, now);
    }
  }

  /** The corrected Delete keeps the coordinator coherent. */
  lemma FixedDeleteCoherent(st: AlarmState, sch: Store, info: AlarmTaskInfo, newId: JobId, now: int)
    requires Coherent(st, sch) && info.action == Delete
    ensures HandleFixedSpec(st, sch, info, newId, now).Some?
    ensures Coherent(HandleFixedSpec(st, sch, info, newId, now).value.0, HandleFixedSpec(st, sch, info, newId, now).value.1)
  {
    var key := (info.channel, info.alarm);
    if AnySubscribed(AlarmState(SRem(st.sets, key, info.channelId), st.alarmJobs), info.alarm) {
      LeaveCoherent(st, sch, key, info.channelId);
    } else {
      LastLeaveCoherent(st, sch, key, info.channelId);
    }
  }

  /**
   * With the corrected handler, the last subscriber of a time leaving takes
   * the time's job out of the scheduler: no alarm job for that time remains.
   */
  lemma FixedDeleteRemovesJob(st: AlarmState, sch: Store, info: AlarmTaskInfo, newId: JobId, now: int)
    requires Coherent(st, sch) && info.action == Delete
    requires !AnySubscribed(AlarmState(SRem(st.sets, (info.channel, info.alarm), info.channelId), st.alarmJobs), info.alarm)
    ensures HandleFixedSpec(st, sch, info, newId, now).Some?
    ensures var r := HandleFixedSpec(st, sch, info, newId, now).value;
      forall id :: id in r.1.jobs ==> !IsAlarmJobFor(r.1.jobs[id], info.alarm)
  {
    var r := HandleFixedSpec(st, sch, info, newId, now).value;
    forall id | id in r.1.jobs ensures !IsAlarmJobFor(r.1.jobs[id], info.alarm) {
      assert id in sch.jobs && r.1.jobs[id] == sch.jobs[id];
      assert info.alarm in st.alarmJobs ==> id != st.alarmJobs[info.alarm];
    }
  }

  // ---------------------------------------------------------------------------
  // The coordinator object
  // ---------------------------------------------------------------------------

  /** The subscriber sets and the alarm-jobs hash as the worker updates them in place. */
  class AlarmCoordinator {
    var sets: map<SetKey, set<int>>
    var alarmJobs: map<string, JobId>

    function State(): AlarmState
      reads this
    {
      AlarmState(sets, alarmJobs)
    }

    constructor (st: AlarmState)
      ensures State() == st
    {
      sets, alarmJobs := st.sets, st.alarmJobs;
    }

    /**
     * `handle_alarm_task(info, scheduler, redis)` as written; `ok` is false
     * when the alarm time raised and nothing was written.
     */
    method HandleAlarmTask(info: AlarmTaskInfo, sched: Scheduler, newId: JobId, now: int) returns (ok: bool)
      requires sched.Valid()
      modifies this, sched`jobs, sched`runtimes
      ensures sched.Valid()
      ensures ok == HandleSpec(old(State()), old(sched.State()), info, newId, now).Some?
      ensures ok ==> (State(), sched.State()) == HandleSpec(old(State()), old(sched.State()), info, newId, now).value
      ensures !ok ==> State() == old(State()) && sched.State() == old(sched.State())
    {
      var key := (info.channel, info.alarm);
      if info.action == Add {
        if key !in sets {
          var start := CreateStartDate(info.alarm, now);
          if start.None? {
            return false;
          }
          var job := sched.AddJob(newId, AlarmTaskFunc, Some([info.alarm]), None, Some(start.value), Some(Day), now);
          alarmJobs := alarmJobs[info.alarm := job.id];
        }
        sets := SAdd(sets, key, info.channelId);
      } else {
        sets := SRem(sets, key, info.channelId);
        if !AnySubscribed(State(), info.alarm) {
          // the removal coroutine is created but never awaited: the scheduler is not changed
          alarmJobs := alarmJobs - {info.alarm};
        }
      }
      ok := true;
    }

    /** The corrected handler. */
    method HandleAlarmTaskFixed(info: AlarmTaskInfo, sched: Scheduler, newId: JobId, now: int) returns (ok: bool)
      requires sched.Valid()
      modifies this, sched`jobs, sched`runtimes
      ensures sched.Valid()
      ensures ok == HandleFixedSpec(old(State()), old(sched.State()), info, newId, now).Some?
      ensures ok ==> (State(), sched.State()) == HandleFixedSpec(old(State()), old(sched.State()), info, newId, now).value
      ensures !ok ==> State() == old(State()) && sched.State() == old(sched.State())
    {
      var key := (info.channel, info.alarm);
      if info.action == Add {
        if !AnySubscribed(State(), info.alarm) {
          var start := CreateStartDate(info.alarm, now);
          if start.None? {
            return false;
          }
          var job := sched.AddJob(newId, AlarmTaskFunc, Some([info.alarm]), None, Some(start.value), Some(Day), now);
          alarmJobs := alarmJobs[info.alarm := job.id];
        }
        sets := SAdd(sets, key, info.channelId);
      } else {
        var jobs0 := alarmJobs;
        sets := SRem(sets, key, info.channelId);
        if !AnySubscribed(State(), info.alarm) {
          if info.alarm in jobs0 {
            sched.RemoveJob(jobs0[info.alarm]);
          }
          alarmJobs := alarmJobs - {info.alarm};
        }
      }
      ok := true;
    }
  }
}
