/**
 * Store key names and the `;`-separated wire format of the two task records
 * that travel through the store's queues: `AlarmTaskInfo` (subscribe or
 * unsubscribe a channel member to a daily alarm time) and `ReportTaskInfo`
 * (build a journal report for a user).
 */
module RedisConstants {
  import opened Opt
  import opened Text

  // ---------------------------------------------------------------------------
  // Key names
  // ---------------------------------------------------------------------------

  const SchedulerJobs: string := "scheduler:jobs"         // hash: job id -> job
  const AlarmsJob: string := "alarms:jobs"                // hash: alarm time -> job id
  const SchedulerRuntimes: string := "scheduler:runtimes" // sorted set: job id -> next fire time
  const AlarmsQueue: string := "alarms:queue"             // list of encoded AlarmTaskInfo
  const ReportsQueue: string := "reports:queue"           // list of encoded ReportTaskInfo

  /** Key of the set of channel members subscribed to `time` on `channel`. */
  function AlarmsUsers(channel: string, time: string): string {
    "alarms:" + channel + ":" + time
  }

  /** Key of the callback URL registered by `channel`. */
  function WebhooksUrl(channel: string): string {
    "webhooks:" + channel + "-url"
  }

  // ---------------------------------------------------------------------------
  // Enumerations and their string values
  // ---------------------------------------------------------------------------

  /** The messaging surfaces (`Channel`, a string enum). */
  datatype Channel = Telegram | Discord | Whatsapp

  const AllChannels: seq<Channel> := [Telegram, Discord, Whatsapp]

  function ChannelValue(c: Channel): string {
    match c
    case Telegram => "telegram"
    case Discord => "discord"
    case Whatsapp => "whatsapp"
  }

  /** `Channel(s)`: lookup by value; `None` stands for the `ValueError`. */
  function ParseChannel(s: string): (r: Option<Channel>)
    ensures r.Some? ==> ChannelValue(r.value) == s
    ensures r.None? ==> forall c :: ChannelValue(c) != s
  {
    if s == "telegram" then Some(Telegram)
    else if s == "discord" then Some(Discord)
    else if s == "whatsapp" then Some(Whatsapp)
    else None
  }

  lemma ChannelRoundTrip(c: Channel)
    ensures ParseChannel(ChannelValue(c)) == Some(c)
  {
  }

  /** `AlarmActions`: what an alarm task asks for. */
  datatype AlarmAction = Add | Delete

  function ActionValue(a: AlarmAction): string {
    match a
    case Add => "add"
    case Delete => "delete"
  }

  /** `AlarmActions(s)`: exactly the values "add" and "delete" are members. */
  function ParseAction(s: string): (r: Option<AlarmAction>)
    ensures r == Some(Add) <==> s == "add"
    ensures r == Some(Delete) <==> s == "delete"
    ensures r.None? <==> s != "add" && s != "delete"
  {
    if s == "add" then Some(Add) else if s == "delete" then Some(Delete) else None
  }

  lemma ActionRoundTrip(a: AlarmAction)
    ensures ParseAction(ActionValue(a)) == Some(a)
  {
  }

  /** `ReportRequester`: who ordered a report. */
  datatype ReportRequester = ChannelRequest | WebappRequest

  function RequesterValue(r: ReportRequester): string {
    match r
    case ChannelRequest => "channel"
    case WebappRequest => "webapp"
  }

  function ParseRequester(s: string): (r: Option<ReportRequester>)
    ensures r.Some? ==> RequesterValue(r.value) == s
    ensures r.None? ==> forall q :: RequesterValue(q) != s
  {
    if s == "channel" then Some(ChannelRequest)
    else if s == "webapp" then Some(WebappRequest)
    else None
  }

  lemma RequesterRoundTrip(q: ReportRequester)
    ensures ParseRequester(RequesterValue(q)) == Some(q)
  {
  }

  // ---------------------------------------------------------------------------
  // The alarm time format ("%H:%M" as `datetime.strptime` reads it)
  // ---------------------------------------------------------------------------

  /** `%H`: one or two ASCII digits with a value below 24. */
  function ParseHour(h: string): (r: Option<nat>)
    ensures r.Some? ==> r.value < 24 && 1 <= |h| <= 2 && AllDigits(h)
    ensures r.Some? ==> r.value == DigitsValue(h)
  {
    if 1 <= |h| <= 2 && AllDigits(h) && DigitsValue(h) < 24 then Some(DigitsValue(h)) else None
  }

  /** `%M`: one or two ASCII digits with a value below 60. */
  function ParseMinute(m: string): (r: Option<nat>)
    ensures r.Some? ==> r.value < 60 && 1 <= |m| <= 2 && AllDigits(m)
    ensures r.Some? ==> r.value == DigitsValue(m)
  {
    if 1 <= |m| <= 2 && AllDigits(m) && DigitsValue(m) < 60 then Some(DigitsValue(m)) else None
  }

  /**
   * `datetime.strptime(s, "%H:%M")` as (hour, minute); `None` stands for the
   * `ValueError`. The hour takes one character when the second one is the colon
   * and two otherwise, as the regular expression behind `strptime` decides.
   */
  function ParseTime(s: string): (r: Option<(nat, nat)>)
    ensures r.Some? ==> r.value.0 < 24 && r.value.1 < 60
    ensures r.Some? ==> forall i :: 0 <= i < |s| ==> IsDigit(s[i]) || s[i] == ':'
  {
    var colon := if |s| >= 2 && s[1] == ':' then 1 else if |s| >= 3 && s[2] == ':' then 2 else 0;
    if colon == 0 then None
    else
      var h := ParseHour(s[..colon]);
      var m := ParseMinute(s[colon + 1..]);
      if h.Some? && m.Some? then
        assert forall i :: 0 <= i < |s| && i != colon ==>
          (i < colon ==> s[i] == s[..colon][i]) && (i > colon ==> s[i] == s[colon + 1..][i - colon - 1]);
        Some((h.value, m.value))
      else None
  }

  /** The alarm time `TIME_FMT` check. */
  predicate IsTimeFmt(s: string) {
    ParseTime(s).Some?
  }

  /**
   * `t` is one way `strftime` or a user writes the field value `v`: two digits
   * with a leading zero, or a single digit when `v` is below 10.
   */
  predicate TimeField(t: string, v: nat) {
    t == Pad2(v) || (v < 10 && t == [DigitChar(v)])
  }

  /** The one- and two-digit spellings of a value are exactly the short digit strings with that value. */
  lemma TimeFieldIff(t: string, v: nat)
    requires v < 100
    ensures TimeField(t, v) <==> 1 <= |t| <= 2 && AllDigits(t) && DigitsValue(t) == v
  {
    if |t| == 1 && AllDigits(t) {
      OneDigitField(t);
    } else if |t| == 2 && AllDigits(t) {
      TwoDigitField(t);
    } else if v < 10 {
      assert |[DigitChar(v)]| == 1;
    }
  }

  /** A one-digit string is the spelling of its digit's value. */
  lemma OneDigitField(t: string)
    requires |t| == 1 && AllDigits(t)
    ensures DigitsValue(t) == DigitValue(t[0]) && t == [DigitChar(DigitsValue(t))]
  {
    assert t[..0] == [];
  }

  /** A two-digit string is the two-digit spelling of its value. */
  lemma TwoDigitField(t: string)
    requires |t| == 2 && AllDigits(t)
    ensures DigitsValue(t) == 10 * DigitValue(t[0]) + DigitValue(t[1]) && t == Pad2(DigitsValue(t))
  {
    assert t[..1][..0] == [] && t[..|t| - 1] == t[..1];
    assert DigitsValue(t[..1]) == DigitValue(t[0]);
    var n := DigitsValue(t);
    assert n / 10 == DigitValue(t[0]) && n % 10 == DigitValue(t[1]);
  }

  /** `%H` accepts exactly the one- and two-digit spellings of an hour below 24. */
  lemma ParseHourIff(h: string, v: nat)
    ensures ParseHour(h) == Some(v) <==> v < 24 && TimeField(h, v)
  {
    if v < 24 {
      TimeFieldIff(h, v);
    }
  }

  /** `%M` accepts exactly the one- and two-digit spellings of a minute below 60. */
  lemma ParseMinuteIff(m: string, v: nat)
    ensures ParseMinute(m) == Some(v) <==> v < 60 && TimeField(m, v)
  {
    if v < 60 {
      TimeFieldIff(m, v);
    }
  }

  /** Every spelling of an hour and a minute joined by a colon parses back to that time. */
  lemma FormattedTimeParses(hs: string, ms: string, h: nat, m: nat)
    requires h < 24 && m < 60 && TimeField(hs, h) && TimeField(ms, m)
    ensures ParseTime(hs + ":" + ms) == Some((h, m))
  {
    TimeFieldIff(hs, h);
    TimeFieldIff(ms, m);
    var s := hs + ":" + ms;
    assert s[..|hs|] == hs && s[|hs| + 1..] == ms;
    assert s[|hs|] == ':';
    if |hs| == 2 {
      assert IsDigit(s[1]);
    }
  }

  /** A time that parses is an hour spelling, a colon and a minute spelling of the parsed values. */
  lemma ParsedTimeForm(s: string, h: nat, m: nat)
    requires ParseTime(s) == Some((h, m))
    ensures h < 24 && m < 60
    ensures exists hs, ms :: s == hs + ":" + ms && TimeField(hs, h) && TimeField(ms, m)
  {
    var c := if s[1] == ':' then 1 else 2;
    var hs, ms := s[..c], s[c + 1..];
    assert s == hs + ":" + ms;
    TimeFieldIff(hs, h);
    TimeFieldIff(ms, m);
  }

  // ---------------------------------------------------------------------------
  // Task records and their wire format
  // ---------------------------------------------------------------------------

  const Sep: char := ';'

  datatype ReportTaskInfo = ReportTaskInfo(
    userId: int, channel: Channel, channelId: int, requester: ReportRequester, start: string, end: string)

  datatype AlarmTaskInfo = AlarmTaskInfo(action: AlarmAction, channel: Channel, channelId: int, alarm: string)

  /** `str()` of each field of a report record, in declared field order. */
  function ReportFields(x: ReportTaskInfo): seq<string> {
    [IntToStr(x.userId), ChannelValue(x.channel), IntToStr(x.channelId), RequesterValue(x.requester), x.start, x.end]
  }

  /** `str()` of each field of an alarm record, in declared field order. */
  function AlarmFields(x: AlarmTaskInfo): seq<string> {
    [ActionValue(x.action), ChannelValue(x.channel), IntToStr(x.channelId), x.alarm]
  }

  /** `TaskInfo.to_str` for a report record. */
  function ReportToStr(x: ReportTaskInfo): string {
    Join(ReportFields(x), [Sep])
  }

  /** `TaskInfo.to_str` for an alarm record. */
  function AlarmToStr(x: AlarmTaskInfo): string {
    Join(AlarmFields(x), [Sep])
  }

  /** What `ReportTaskInfo.from_str` demands of the split string. */
  predicate ReportWire(p: seq<string>) {
    && |p| == 6
    && ParseInt(p[0]).Some? && ParseChannel(p[1]).Some?
    && ParseInt(p[2]).Some? && ParseRequester(p[3]).Some?
  }

  /** What `AlarmTaskInfo.from_str` demands of the split string. */
  predicate AlarmWire(p: seq<string>) {
    && |p| == 4
    && ParseAction(p[0]).Some? && ParseChannel(p[1]).Some?
    && ParseInt(p[2]).Some? && IsTimeFmt(p[3])
  }

  /**
   * `ReportTaskInfo.from_str`: exactly six fields, ids parsed by `int()`, the
   * channel and requester by value; the dates are kept as they are. Any failure
   * gives `None`, never a partial record.
   */
  function ReportFromStr(s: string): (r: Option<ReportTaskInfo>)
    ensures r.Some? <==> ReportWire(Split(s, Sep))
    ensures r.Some? ==> r.value.start == Split(s, Sep)[4] && r.value.end == Split(s, Sep)[5]
  {
    ReportFromParts(Split(s, Sep))
  }

  /** A report record from the pieces of the split string. */
  function ReportFromParts(p: seq<string>): (r: Option<ReportTaskInfo>)
    ensures r.Some? <==> ReportWire(p)
    ensures r.Some? ==> r.value.start == p[4] && r.value.end == p[5]
  {
    if ReportWire(p) then
      Some(ReportTaskInfo(ParseInt(p[0]).value, ParseChannel(p[1]).value, ParseInt(p[2]).value,
                          ParseRequester(p[3]).value, p[4], p[5]))
    else None
  }

  /**
   * `AlarmTaskInfo.from_str`: exactly four fields, the action and channel by
   * value, the channel id by `int()`, and the alarm time checked against the
   * time format but kept as the original string.
   */
  function AlarmFromStr(s: string): (r: Option<AlarmTaskInfo>)
    ensures r.Some? <==> AlarmWire(Split(s, Sep))
    ensures r.Some? ==> r.value.alarm == Split(s, Sep)[3] && IsTimeFmt(r.value.alarm)
  {
    AlarmFromParts(Split(s, Sep))
  }

  /** An alarm record from the pieces of the split string. */
  function AlarmFromParts(p: seq<string>): (r: Option<AlarmTaskInfo>)
    ensures r.Some? <==> AlarmWire(p)
    ensures r.Some? ==> r.value.alarm == p[3] && IsTimeFmt(r.value.alarm)
  {
    if AlarmWire(p) then
      Some(AlarmTaskInfo(ParseAction(p[0]).value, ParseChannel(p[1]).value, ParseInt(p[2]).value, p[3]))
    else None
  }

  // ---------------------------------------------------------------------------
  // Properties of the wire format
  // ---------------------------------------------------------------------------

  lemma EnumValuesHaveNoSep(c: Channel, a: AlarmAction, q: ReportRequester)
    ensures Sep !in ChannelValue(c) && Sep !in ActionValue(a) && Sep !in RequesterValue(q)
  {
  }

  /** A report record whose dates hold no `;` decodes back to itself. */
  lemma ReportRoundTrip(x: ReportTaskInfo)
    requires Sep !in x.start && Sep !in x.end
    ensures ReportFromStr(ReportToStr(x)) == Some(x)
  {
    ReportFieldsSplit(x);
    ReportFromFields(x);
  }

  lemma ReportFieldsSplit(x: ReportTaskInfo)
    requires Sep !in x.start && Sep !in x.end
    ensures Split(ReportToStr(x), Sep) == ReportFields(x)
  {
    IntToStrChars(x.userId, Sep);
    IntToStrChars(x.channelId, Sep);
    EnumValuesHaveNoSep(x.channel, Add, x.requester);
    SplitJoin(ReportFields(x), Sep);
  }

  /** The six field strings of a report record decode to that record. */
  lemma ReportFromFields(x: ReportTaskInfo)
    ensures ReportFromParts(ReportFields(x)) == Some(x)
  {
    ReportUserIdField(x);
    ReportChannelIdField(x);
    ReportEnumFields(x);
    ReportPartsDecode(ReportFields(x), x);
  }

  // Each field on its own: two `int()` facts over one display at once are
  // costly for the solver.
  lemma ReportUserIdField(x: ReportTaskInfo)
    ensures ParseInt(ReportFields(x)[0]) == Some(x.userId)
  {
    IntToStrRoundTrip(x.userId);
  }

  lemma ReportChannelIdField(x: ReportTaskInfo)
    ensures ParseInt(ReportFields(x)[2]) == Some(x.channelId)
  {
    IntToStrRoundTrip(x.channelId);
  }

  lemma ReportEnumFields(x: ReportTaskInfo)
    ensures ParseChannel(ReportFields(x)[1]) == Some(x.channel)
    ensures ParseRequester(ReportFields(x)[3]) == Some(x.requester)
    ensures |ReportFields(x)| == 6 && ReportFields(x)[4] == x.start && ReportFields(x)[5] == x.end
  {
    ChannelRoundTrip(x.channel);
    RequesterRoundTrip(x.requester);
  }

  lemma ReportPartsDecode(p: seq<string>, x: ReportTaskInfo)
    requires |p| == 6 && p[4] == x.start && p[5] == x.end
    requires ParseInt(p[0]) == Some(x.userId) && ParseChannel(p[1]) == Some(x.channel)
    requires ParseInt(p[2]) == Some(x.channelId) && ParseRequester(p[3]) == Some(x.requester)
    ensures ReportFromParts(p) == Some(x)
  {
  }

  /** An alarm record whose time matches the time format decodes back to itself. */
  lemma AlarmRoundTrip(x: AlarmTaskInfo)
    requires IsTimeFmt(x.alarm)
    ensures AlarmFromStr(AlarmToStr(x)) == Some(x)
  {
    TimeFmtHasNoSep(x.alarm);
    AlarmFieldsSplit(x);
    AlarmFromFields(x);
  }

  lemma TimeFmtHasNoSep(t: string)
    requires IsTimeFmt(t)
    ensures Sep !in t
  {
    assert forall i :: 0 <= i < |t| ==> t[i] != Sep;
  }

  /** The four field strings of an alarm record decode to that record. */
  lemma AlarmFromFields(x: AlarmTaskInfo)
    requires IsTimeFmt(x.alarm)
    ensures AlarmFromParts(AlarmFields(x)) == Some(x)
  {
    AlarmEnumFields(x);
    AlarmChannelIdField(x);
    AlarmPartsDecode(AlarmFields(x), x);
  }

  lemma AlarmEnumFields(x: AlarmTaskInfo)
    ensures ParseAction(AlarmFields(x)[0]) == Some(x.action) && ParseChannel(AlarmFields(x)[1]) == Some(x.channel)
    ensures |AlarmFields(x)| == 4 && AlarmFields(x)[3] == x.alarm
  {
    ActionRoundTrip(x.action);
    ChannelRoundTrip(x.channel);
  }

  lemma AlarmChannelIdField(x: AlarmTaskInfo)
    ensures ParseInt(AlarmFields(x)[2]) == Some(x.channelId)
  {
    IntToStrRoundTrip(x.channelId);
  }

  lemma AlarmPartsDecode(p: seq<string>, x: AlarmTaskInfo)
    requires |p| == 4 && p[3] == x.alarm && IsTimeFmt(x.alarm)
    requires ParseAction(p[0]) == Some(x.action) && ParseChannel(p[1]) == Some(x.channel)
    requires ParseInt(p[2]) == Some(x.channelId)
    ensures AlarmFromParts(p) == Some(x)
  {
  }

  lemma AlarmFieldsSplit(x: AlarmTaskInfo)
    requires Sep !in x.alarm
    ensures Split(AlarmToStr(x), Sep) == AlarmFields(x)
  {
    IntToStrChars(x.channelId, Sep);
    EnumValuesHaveNoSep(x.channel, x.action, ChannelRequest);
    SplitJoin(AlarmFields(x), Sep);
  }

  /**
   * Whatever string a report record was decoded from, encoding the record and
   * decoding again gives the same record: the encoding is a normal form.
   */
  lemma ReportDecodeNormalises(s: string, x: ReportTaskInfo)
    requires ReportFromStr(s) == Some(x)
    ensures ReportFromStr(ReportToStr(x)) == Some(x)
  {
    ReportRoundTrip(x);
  }

  /** The same for alarm records. */
  lemma AlarmDecodeNormalises(s: string, x: AlarmTaskInfo)
    requires AlarmFromStr(s) == Some(x)
    ensures AlarmFromStr(AlarmToStr(x)) == Some(x)
  {
    AlarmRoundTrip(x);
  }

  /** Number of occurrences of `c` in `s`. */
  function Occurrences(s: string, c: char): nat {
    if s == [] then 0 else (if s[0] == c then 1 else 0) + Occurrences(s[1..], c)
  }

  lemma {:induction false} OccurrencesAppend(a: string, b: string, c: char)
    ensures Occurrences(a + b, c) == Occurrences(a, c) + Occurrences(b, c)
  {
    if a == [] {
      assert a + b == b;
    } else {
      OccurrencesAppend(a[1..], b, c);
      assert (a + b)[0] == a[0];
      assert (a + b)[1..] == a[1..] + b;
    }
  }

  lemma {:induction false} OccurrencesPositive(s: string, c: char)
    requires c in s
    ensures Occurrences(s, c) > 0
  {
    if s[0] != c {
      OccurrencesPositive(s[1..], c);
    }
  }

  /** `s.split(c)` has one more piece than `s` has separators. */
  lemma {:induction false} SplitLength(s: string, c: char)
    ensures |Split(s, c)| == Occurrences(s, c) + 1
  {
    if s != [] {
      SplitLength(s[1..], c);
    }
  }

  /** A join holds every separator of its parts plus one between each two parts. */
  lemma {:induction false} OccurrencesJoin(parts: seq<string>, c: char, i: nat)
    requires i < |parts|
    ensures Occurrences(Join(parts, [c]), c) >= |parts| - 1 + Occurrences(parts[i], c)
  {
    if |parts| > 1 {
      var rest := Join(parts[1..], [c]);
      OccurrencesAppend(parts[0] + [c], rest, c);
      OccurrencesAppend(parts[0], [c], c);
      assert Occurrences([c], c) == 1;
      if i == 0 {
        OccurrencesJoin(parts[1..], c, 0);
      } else {
        OccurrencesJoin(parts[1..], c, i - 1);
      }
    }
  }

  /**
   * The codec does not escape: a report whose dates hold a `;` is encoded into a
   * string that the decoder rejects (it splits into more than six fields).
   */
  lemma ReportSepInDateRejected(x: ReportTaskInfo)
    requires Sep in x.start || Sep in x.end
    ensures ReportFromStr(ReportToStr(x)) == None
  {
    var f := ReportFields(x);
    var i := if Sep in x.start then 4 else 5;
    OccurrencesPositive(f[i], Sep);
    OccurrencesJoin(f, Sep, i);
    SplitLength(ReportToStr(x), Sep);
  }

  // ---------------------------------------------------------------------------
  // Properties of the key names
  // ---------------------------------------------------------------------------

  /** Distinct (channel, time) pairs name distinct subscriber sets. */
  lemma AlarmsUsersInjective(c1: Channel, t1: string, c2: Channel, t2: string)
    requires AlarmsUsers(ChannelValue(c1), t1) == AlarmsUsers(ChannelValue(c2), t2)
    ensures c1 == c2 && t1 == t2
  {
    var k1 := AlarmsUsers(ChannelValue(c1), t1);
    var k2 := AlarmsUsers(ChannelValue(c2), t2);
    assert k1[7] == ChannelValue(c1)[0] && k2[7] == ChannelValue(c2)[0];
    var n := 7 + |ChannelValue(c1)| + 1;
    assert t1 == k1[n..] && t2 == k2[n..];
  }

  /** No subscriber-set key collides with the alarm-jobs hash or the alarm queue. */
  lemma AlarmsUsersNotFixedKey(c: Channel, t: string)
    ensures AlarmsUsers(ChannelValue(c), t) != AlarmsJob
    ensures AlarmsUsers(ChannelValue(c), t) != AlarmsQueue
  {
    var k := AlarmsUsers(ChannelValue(c), t);
    assert k[7] == ChannelValue(c)[0];
    assert AlarmsJob[7] == 'j' && AlarmsQueue[7] == 'q';
  }

  /** Distinct channels have distinct callback-URL keys. */
  lemma WebhooksUrlInjective(c1: Channel, c2: Channel)
    requires WebhooksUrl(ChannelValue(c1)) == WebhooksUrl(ChannelValue(c2))
    ensures c1 == c2
  {
    assert WebhooksUrl(ChannelValue(c1))[9] == ChannelValue(c1)[0];
    assert WebhooksUrl(ChannelValue(c2))[9] == ChannelValue(c2)[0];
  }
}
