/**
 * The journal's periodic jobs: the weekly report covers last Monday to last
 * Sunday and holds the non-empty entries of those days; the retention job
 * marks for deletion every stored entry whose key is not the key of one of the
 * last `DaysToStore` days. Days are day numbers (day 0 is Thursday 1 January
 * 1970); how a day becomes an entry key is a parameter `keyOf`.
 */
module JournalJobs {
  import opened Opt
  import opened Text

  /** `DAYS_TO_STORE`. */
  const DaysToStore: nat := 60

  /** `date.isoweekday()`: Monday is 1, Sunday is 7. */
  function IsoWeekday(day: int): (w: int)
    ensures 1 <= w <= 7
  {
    (day + 3) % 7 + 1
  }

  /** The next day's weekday follows on, wrapping from Sunday to Monday. */
  lemma IsoWeekdayNext(day: int)
    ensures IsoWeekday(day + 1) == if IsoWeekday(day) == 7 then 1 else IsoWeekday(day) + 1
  {
  }

  /** `today - timedelta(days=today.isoweekday())`: the most recent Sunday strictly before today. */
  function LastSunday(today: int): (r: int)
    ensures 1 <= today - r <= 7
    ensures IsoWeekday(r) == 7
    ensures forall d :: r < d < today ==> IsoWeekday(d) != 7
  {
    var r := today - IsoWeekday(today);
    assert forall d :: r < d < today ==> IsoWeekday(d) == IsoWeekday(today) - (today - d);
    r
  }

  /** The days of `last_week`: `last_sunday - 6` up to `last_sunday`, ascending. */
  function LastWeekDays(today: int): (days: seq<int>)
    ensures |days| == 7
    ensures forall i :: 0 <= i < 7 ==> days[i] == LastSunday(today) - 6 + i
  {
    var s := LastSunday(today);
    seq(7, i => s - (6 - i))
  }

  /** `last_week`: the keys of those days. */
  function LastWeek(today: int, keyOf: int -> string): (keys: seq<string>)
    ensures |keys| == 7
    ensures forall i :: 0 <= i < 7 ==> keys[i] == keyOf(LastWeekDays(today)[i])
  {
    var days := LastWeekDays(today);
    seq(7, i requires 0 <= i < 7 => keyOf(days[i]))
  }

  /** The week runs from Monday to Sunday and ends before today, at most two weeks back. */
  lemma LastWeekIsMondayToSunday(today: int, i: nat)
    requires i < 7
    ensures IsoWeekday(LastWeekDays(today)[i]) == i + 1
    ensures today - 13 <= LastWeekDays(today)[i] < today
  {
    var s := LastSunday(today);
    assert (s + 3) % 7 == 6;
    assert LastWeekDays(today)[i] + 3 == (s + 3) - 6 + i;
  }

  /** A journal entry: the answers stored for one day; it counts when it holds any. */
  type Entry = map<string, string>

  predicate Truthy(e: Entry) {
    |e| > 0
  }

  /** The entries of `keys` that exist and are non-empty. */
  function WeekEntries(entries: map<string, Entry>, keys: seq<string>): map<string, Entry> {
    map k | k in keys && k in entries && Truthy(entries[k]) :: entries[k]
  }

  /**
   * `WeeklyReport`; the rendered file is abstracted to the entries it is
   * rendered from, and is absent when there are none.
   */
  datatype WeeklyReport = WeeklyReport(chatId: string, period: string, filename: string, fileBytes: Option<map<string, Entry>>)

  /** The file name the HTML generator derives from a period. */
  function ReportFilename(period: string): string {
    "hpj_" + period + ".html"
  }

  /**
   * `create_weekly_report`: the entries of last week's days, collected one day
   * at a time; the period is the first and last key joined by "-".
   */
  method CreateWeeklyReport(chatId: string, entries: map<string, Entry>, today: int, keyOf: int -> string)
    returns (r: WeeklyReport)
    ensures r.chatId == chatId
    ensures var week := LastWeek(today, keyOf);
      r.period == week[0] + "-" + week[6] && r.filename == ReportFilename(r.period)
    ensures r.fileBytes.None? <==>
      forall i :: 0 <= i < 7 ==> LastWeek(today, keyOf)[i] !in entries || !Truthy(entries[LastWeek(today, keyOf)[i]])
    ensures r.fileBytes.Some? ==> r.fileBytes.value == WeekEntries(entries, LastWeek(today, keyOf))
  {
    var week := LastWeek(today, keyOf);
    var result: map<string, Entry> := map[];
    var i := 0;
    while i < |week|
      invariant 0 <= i <= |week|
      invariant result == WeekEntries(entries, week[..i])
    {
      var date := week[i];
      if date in entries && Truthy(entries[date]) {
        result := result[date := entries[date]];
      }
      assert week[..i + 1] == week[..i] + [date];
      i := i + 1;
    }
    assert week[..|week|] == week;
    var period := week[0] + "-" + week[|week| - 1];
    if |result| > 0 {
      r := WeeklyReport(chatId, period, ReportFilename(period), Some(result));
    } else {
      assert forall i :: 0 <= i < 7 ==> week[i] !in result;
      r := WeeklyReport(chatId, period, ReportFilename(period), None);
    }
  }

  /** With keys that hold no "-", the period splits back into the first and last day of the week. */
  lemma PeriodSplits(today: int, keyOf: int -> string)
    requires forall d :: '-' !in keyOf(d)
    ensures var week := LastWeek(today, keyOf);
      Split(week[0] + "-" + week[6], '-') == [week[0], week[6]]
  {
    var week := LastWeek(today, keyOf);
    SplitJoin([week[0], week[6]], '-');
    assert Join([week[0], week[6]], "-") == week[0] + "-" + week[6] by {
      assert [week[0], week[6]][1..] == [week[6]];
    }
  }

  // ---------------------------------------------------------------------------
  // Retention
  // ---------------------------------------------------------------------------

  /** The key of the day `back` days before `today`. */
  function KeyBefore(keyOf: int -> string, today: int, back: int): string {
    keyOf(today - back)
  }

  /** `keys_to_save`: the keys of today and the `DaysToStore - 1` days before it. */
  function KeysToSave(today: int, keyOf: int -> string): (keep: set<string>)
    ensures forall back :: 0 <= back < DaysToStore ==> KeyBefore(keyOf, today, back) in keep
    ensures forall k :: k in keep ==> exists back :: 0 <= back < DaysToStore && k == KeyBefore(keyOf, today, back)
  {
    set back | 0 <= back < DaysToStore :: KeyBefore(keyOf, today, back)
  }

  /**
   * `mark_entries_for_delete`: the stored keys that are not kept, or `None`
   * when there are none and the database is not called.
   */
  function MarkEntriesForDelete(existing: set<string>, today: int, keyOf: int -> string): (r: Option<set<string>>)
    ensures r.None? <==> existing <= KeysToSave(today, keyOf)
    ensures r.Some? ==> r.value != {} && r.value <= existing
    ensures r.Some? ==> forall k :: k in r.value <==> k in existing && k !in KeysToSave(today, keyOf)
  {
    var keep := KeysToSave(today, keyOf);
    var toDelete := existing - keep;
    assert forall k :: k in existing ==> k in toDelete || k in keep;
    if toDelete == {} then None else Some(toDelete)
  }

  /** The key of any of the last `DaysToStore` days is never marked. */
  lemma RecentKeysKept(existing: set<string>, today: int, keyOf: int -> string, day: int)
    requires today - DaysToStore < day <= today
    ensures var r := MarkEntriesForDelete(existing, today, keyOf);
      r.Some? ==> keyOf(day) !in r.value
  {
    assert KeyBefore(keyOf, today, today - day) == keyOf(day);
  }

  /** A stored key that matches none of the last `DaysToStore` days is always marked. */
  lemma OldKeysMarked(existing: set<string>, today: int, keyOf: int -> string, k: string)
    requires k in existing
    requires forall back :: 0 <= back < DaysToStore ==> KeyBefore(keyOf, today, back) != k
    ensures MarkEntriesForDelete(existing, today, keyOf).Some?
    ensures k in MarkEntriesForDelete(existing, today, keyOf).value
  {
  }

  /** Marking is idempotent: once the marked keys are gone, nothing else is marked on the same day. */
  lemma MarkIdempotent(existing: set<string>, today: int, keyOf: int -> string)
    requires MarkEntriesForDelete(existing, today, keyOf).Some?
    ensures MarkEntriesForDelete(existing - MarkEntriesForDelete(existing, today, keyOf).value, today, keyOf).None?
  {
  }

  /** Last week's entries survive retention, so a weekly report never misses one to the deletion job. */
  lemma WeekKeysKept(existing: set<string>, today: int, keyOf: int -> string, i: nat)
    requires i < 7
    ensures LastWeek(today, keyOf)[i] in KeysToSave(today, keyOf)
    ensures var r := MarkEntriesForDelete(existing, today, keyOf);
      r.Some? ==> LastWeek(today, keyOf)[i] !in r.value
  {
    LastWeekIsMondayToSunday(today, i);
    var day := LastWeekDays(today)[i];
    assert KeyBefore(keyOf, today, today - day) == keyOf(day);
    RecentKeysKept(existing, today, keyOf, day);
  }
}
