/**
 * The head-pain journal survey: fifteen questions keyed by `QuestionKeys`,
 * asked in a fixed order except that "did you have a headache today?",
 * which accepts only "Да" and "Нет", skips to the last question on "Нет".
 * The date question checks the answer against the `%d.%m` format and
 * suggests yesterday and today.
 */
module HpjQuestions {
  import opened Opt
  import opened Text
  import Calendar
  import opened QuestionBase
  import opened Survey

  /** `QuestionKeys`, in declaration order. */
  datatype QuestionKey =
    | Date | HadPain | FirstNotice | WhenStop | EyeDellusion | WhereHurts | Nature
    | PhysicalTrigger | PainIntensity | HadSickness | HadVomit | LightIrritation
    | SoundIrritation | Causes | Painkillers

  /** The string value of each key. */
  function KeyName(k: QuestionKey): string {
    match k
    case Date => "q_date"
    case HadPain => "q_had_pain"
    case FirstNotice => "q_first_notice"
    case WhenStop => "q_when_stop"
    case EyeDellusion => "q_eye_dellusion"
    case WhereHurts => "q_where_hurts"
    case Nature => "q_nature"
    case PhysicalTrigger => "q_physical_trigger"
    case PainIntensity => "q_pain_intensity"
    case HadSickness => "q_had_sickness"
    case HadVomit => "q_had_vomit"
    case LightIrritation => "q_light_irritation"
    case SoundIrritation => "q_sound_irritation"
    case Causes => "q_causes"
    case Painkillers => "q_painkillers"
  }

  /** Declaration order: `Date` is 0, `Painkillers` is 14. */
  function Rank(k: QuestionKey): (r: nat)
    ensures r <= 14
  {
    match k
    case Date => 0
    case HadPain => 1
    case FirstNotice => 2
    case WhenStop => 3
    case EyeDellusion => 4
    case WhereHurts => 5
    case Nature => 6
    case PhysicalTrigger => 7
    case PainIntensity => 8
    case HadSickness => 9
    case HadVomit => 10
    case LightIrritation => 11
    case SoundIrritation => 12
    case Causes => 13
    case Painkillers => 14
  }

  const AllKeys: seq<QuestionKey> :=
    [Date, HadPain, FirstNotice, WhenStop, EyeDellusion, WhereHurts, Nature, PhysicalTrigger,
     PainIntensity, HadSickness, HadVomit, LightIrritation, SoundIrritation, Causes, Painkillers]

  /** `AllKeys` lists each key once, at its rank. */
  lemma AllKeysInOrder(k: QuestionKey)
    ensures |AllKeys| == 15 && AllKeys[Rank(k)] == k
  {
  }

  /** Distinct keys have distinct string values, so the question table has fifteen entries. */
  lemma KeyNameInjective(a: QuestionKey, b: QuestionKey)
    ensures KeyName(a) == KeyName(b) ==> a == b
  {
    var x, y := KeyName(a), KeyName(b);
    if x == y {
      assert x[|x| - 1] == y[|y| - 1] && x[2] == y[2] && x[3] == y[3] && x[4] == y[4] && x[5] == y[5];
    }
  }

  /** Position `j` of `AllKeys` holds the key of rank `j`. */
  lemma AllKeysRank(j: nat)
    requires j < |AllKeys|
    ensures Rank(AllKeys[j]) == j
  {
  }

  /** `q_strings`: the text of each question. */
  function QText(k: QuestionKey): string {
    match k
    case Date => "Число"
    case HadPain => "Была ли у вас сегодня головная боль?"
    case FirstNotice => "Когда впервые заметили головную боль?"
    case WhenStop => "Когда прекратилась?"
    case EyeDellusion => "В течение часа до начала головной боли отмечали ли Вы зрительные нарушения? (вспышки света, линии-зигзаги, слепые пятна и др.)"
    case WhereHurts => "Где отмечалась головная боль?"
    case Nature => "Характер головной боли"
    case PhysicalTrigger => "Ухудшалась ли головная боль при физической активности? (подъём по лестнице и др.)"
    case PainIntensity => "Какова была в целом интенсивность головной боли?"
    case HadSickness => "Была ли у вас тошнота?"
    case HadVomit => "Была ли рвота?"
    case LightIrritation => "Вас раздражал свет?"
    case SoundIrritation => "Вас раздражал звук?"
    case Causes => "Могло ли что-то послужить причиной головной боли?"
    case Painkillers => "Принимали ли вы сегодня препараты от головной боли? Для каждого препарата укажите название, принятую дозу и время приёма"
  }

  const YesNo: seq<string> := ["Да", "Нет"]

  /** The fixed answer options of each question (none for free-text questions and the date). */
  function OptionsOf(k: QuestionKey): seq<string> {
    match k
    case HadPain => YesNo
    case EyeDellusion => YesNo
    case WhereHurts => ["С одной стороны", "С обеих"]
    case Nature => ["Пульсирующая", "Сжимающая"]
    case PhysicalTrigger => YesNo
    case PainIntensity => ["Незначительная", "Сильная", "Очень сильная"]
    case HadSickness => ["Нет", "Незначительная", "Заметная"]
    case HadVomit => YesNo
    case LightIrritation => YesNo
    case SoundIrritation => YesNo
    case _ => []
  }

  /** `had_pain_next_q`: "да" in any case leads on to the pain questions, anything else to the last one. */
  function HadPainNext(answer: string): (k: QuestionKey)
    ensures k == FirstNotice <==> Lower(answer) == "да"
    ensures k != FirstNotice ==> k == Painkillers
  {
    if Lower(answer) == "да" then FirstNotice else Painkillers
  }

  /** The question an answer leads to; the last question leads to none. */
  function Successor(k: QuestionKey, answer: string): (r: Option<QuestionKey>)
    ensures r.None? <==> k == Painkillers
    ensures r.Some? ==> Rank(r.value) > Rank(k)
    ensures k != HadPain && r.Some? ==> Rank(r.value) == Rank(k) + 1
  {
    match k
    case Date => Some(HadPain)
    case HadPain => Some(HadPainNext(answer))
    case FirstNotice => Some(WhenStop)
    case WhenStop => Some(EyeDellusion)
    case EyeDellusion => Some(WhereHurts)
    case WhereHurts => Some(Nature)
    case Nature => Some(PhysicalTrigger)
    case PhysicalTrigger => Some(PainIntensity)
    case PainIntensity => Some(HadSickness)
    case HadSickness => Some(HadVomit)
    case HadVomit => Some(LightIrritation)
    case LightIrritation => Some(SoundIrritation)
    case SoundIrritation => Some(Causes)
    case Causes => Some(Painkillers)
    case Painkillers => None
  }

  /** The `next_q` each question is built with. */
  function NextOf(k: QuestionKey): NextQ {
    match k
    case HadPain => Computed(HadPainNextQ)
    case Painkillers => Fixed(NoQuestion)
    case _ => Fixed(Key(KeyName(Successor(k, "").value)))
  }

  /** `had_pain_next_q` as the question's computed `next_q`. */
  function HadPainNextQ(answer: string): Next {
    Key(KeyName(HadPainNext(answer)))
  }

  /** What a question's `next_q` resolves to is the successor's key, or `None` after the last question. */
  lemma NextOfIsSuccessor(k: QuestionKey, answer: string)
    ensures Successor(k, answer).Some? ==> ResolveNext(NextOf(k), answer) == Key(KeyName(Successor(k, answer).value))
    ensures Successor(k, answer).None? ==> ResolveNext(NextOf(k), answer) == NoQuestion
  {
  }

  // ---------------------------------------------------------------------------
  // Walks through the question graph
  // ---------------------------------------------------------------------------

  /**
   * The path through the `next_q` graph from `k`: each answer in turn picks the
   * successor of the current question, until the answers or the questions run
   * out. Whether the built question accepts that answer is not part of the
   * walk; `AcceptedAnswer` below gives answers the survey accepts.
   */
  function Walk(k: QuestionKey, answers: seq<string>): (w: seq<QuestionKey>)
    ensures |w| >= 1 && w[0] == k
    decreases |answers|
  {
    if answers == [] || Successor(k, answers[0]).None? then [k]
    else [k] + Walk(Successor(k, answers[0]).value, answers[1..])
  }

  /** No walk ever returns to a question: ranks strictly increase along it. */
  lemma {:induction false} WalkIncreases(k: QuestionKey, answers: seq<string>, i: nat, j: nat)
    requires i < j < |Walk(k, answers)|
    ensures Rank(Walk(k, answers)[i]) < Rank(Walk(k, answers)[j])
    decreases |answers|
  {
    var w := Walk(k, answers);
    var next := Successor(k, answers[0]).value;
    WalkStartsHigh(next, answers[1..], j - 1);
    if i > 0 {
      WalkIncreases(next, answers[1..], i - 1, j - 1);
    }
  }

  /** Every question of a walk from `k` ranks at least as high as `k`. */
  lemma {:induction false} WalkStartsHigh(k: QuestionKey, answers: seq<string>, j: nat)
    requires j < |Walk(k, answers)|
    ensures Rank(Walk(k, answers)[j]) >= Rank(k)
    decreases |answers|
  {
    if j > 0 {
      WalkStartsHigh(Successor(k, answers[0]).value, answers[1..], j - 1);
    }
  }

  /** With enough answers, every walk ends at the last question. */
  lemma {:induction false} WalkEndsAtPainkillers(k: QuestionKey, answers: seq<string>)
    requires |answers| >= 14 - Rank(k)
    ensures Walk(k, answers)[|Walk(k, answers)| - 1] == Painkillers
    decreases |answers|
  {
    if k != Painkillers {
      WalkEndsAtPainkillers(Successor(k, answers[0]).value, answers[1..]);
    }
  }

  /** In the `next_q` graph, fourteen answers of "да" from the date question pass every question, in declaration order. */
  lemma WalkYesVisitsAll()
    ensures Walk(Date, seq(14, _ => "да")) == AllKeys
  {
    assert Yeses(14) == seq(14, _ => "да");
    LowerYes();
    WalkInOrder(Yeses(14));
  }

  /** A walk from the date question whose answer to the headache question is "да" passes every question in order. */
  lemma WalkInOrder(answers: seq<string>)
    requires |answers| == 14 && Lower(answers[1]) == "да"
    ensures Walk(Date, answers) == AllKeys
  {
    var w := Walk(Date, answers);
    WalkRanksFrom(Date, answers);
    forall j | 0 <= j < 15
      ensures w[j] == AllKeys[j]
    {
      AllKeysInOrder(w[j]);
    }
  }

  /** `n` answers of "да". */
  function Yeses(n: nat): (a: seq<string>)
    ensures |a| == n && forall i :: 0 <= i < n ==> a[i] == "да"
  {
    seq(n, _ => "да")
  }

  /**
   * When the answer given at the headache question (if the walk reaches it) is
   * "да", the `j`-th question of a walk from `k` has rank `Rank(k) + j`.
   */
  lemma {:induction false} WalkRanksFrom(k: QuestionKey, answers: seq<string>)
    requires Rank(k) + |answers| == 14
    requires Rank(k) <= 1 ==> Lower(answers[1 - Rank(k)]) == "да"
    ensures |Walk(k, answers)| == |answers| + 1
    ensures forall j :: 0 <= j <= |answers| ==> Rank(Walk(k, answers)[j]) == Rank(k) + j
    decreases |answers|
  {
    if answers != [] {
      var next := Successor(k, answers[0]).value;
      assert Rank(next) == Rank(k) + 1;
      if Rank(next) <= 1 {
        assert answers[1..][1 - Rank(next)] == answers[1 - Rank(k)];
      }
      WalkRanksFrom(next, answers[1..]);
      WalkStep(k, answers);
    }
  }

  /** One step: the walk is the question followed by the walk from its successor. */
  lemma WalkStep(k: QuestionKey, answers: seq<string>)
    requires answers != [] && k != Painkillers
    ensures Walk(k, answers) == [k] + Walk(Successor(k, answers[0]).value, answers[1..])
  {
  }

  /**
   * In the `next_q` graph, any answer to the headache question other than "да"
   * leads straight to the last question. (The built headache question accepts
   * only "да" and "нет" in any case, so of those only "нет" takes this path.)
   */
  lemma NoPainSkipsToEnd(answers: seq<string>)
    requires |answers| >= 2 && Lower(answers[1]) != "да"
    ensures Walk(Date, answers) == [Date, HadPain, Painkillers]
  {
    var rest := answers[1..];
    assert rest[0] == answers[1];
    assert Successor(HadPain, rest[0]) == Some(Painkillers);
    assert Walk(Painkillers, rest[1..]) == [Painkillers];
    WalkStep(HadPain, rest);
    WalkStep(Date, answers);
  }

  // ---------------------------------------------------------------------------
  // The date question: `strptime(answer, '%d.%m')` and `suggest_date`
  // ---------------------------------------------------------------------------

  /** A `%d` field: one digit 1-9, a space and a digit 1-9, or two digits from 01 to 31. */
  function DayField(t: string): (r: Option<int>)
    ensures r.Some? ==> 1 <= r.value <= 31
  {
    if |t| == 1 && '1' <= t[0] <= '9' then Some(DigitValue(t[0]))
    else if |t| == 2 && t[0] == ' ' && '1' <= t[1] <= '9' then Some(DigitValue(t[1]))
    else if |t| == 2 && AllDigits(t) && 1 <= DigitsValue(t) <= 31 then Some(DigitsValue(t))
    else None
  }

  /** A `%m` field: one digit 1-9, or two digits from 01 to 12. */
  function MonthField(t: string): (r: Option<int>)
    ensures r.Some? ==> 1 <= r.value <= 12
  {
    if |t| == 1 && '1' <= t[0] <= '9' then Some(DigitValue(t[0]))
    else if |t| == 2 && AllDigits(t) && 1 <= DigitsValue(t) <= 12 then Some(DigitsValue(t))
    else None
  }

  /**
   * The `(day, month)` that `%d.%m` reads from the whole of `s`. A day field is
   * one or two characters and holds no dot, so the dot is at position 1 or 2.
   */
  function ParseDayMonth(s: string): (r: Option<(int, int)>)
    ensures r.Some? ==> 1 <= r.value.0 <= 31 && 1 <= r.value.1 <= 12
  {
    var cut := if |s| >= 2 && s[1] == '.' then 1 else if |s| >= 3 && s[2] == '.' then 2 else 0;
    if cut == 0 then None
    else match (DayField(s[..cut]), MonthField(s[cut + 1..]))
      case (Some(d), Some(m)) => Some((d, m))
      case _ => None
  }

  /**
   * `validate_date` as written: `strptime` fills in the year 1900, which is not
   * a leap year, so the parsed day must exist in that month of 1900.
   */
  predicate IsDayMonth1900(s: string) {
    ParseDayMonth(s).Some? && ParseDayMonth(s).value.0 <= Calendar.DaysInMonth(1900, ParseDayMonth(s).value.1)
  }

  /** The check the date question is meant to make: the day exists in that month of some year. */
  predicate IsDayMonthFixed(s: string) {
    ParseDayMonth(s).Some? && ParseDayMonth(s).value.0 <= Calendar.DaysInMonth(2000, ParseDayMonth(s).value.1)
  }

  /** The corrected check accepts everything the original accepts, and in addition only the 29th of February. */
  lemma FixedOnlyAddsLeapDay(s: string)
    ensures IsDayMonth1900(s) ==> IsDayMonthFixed(s)
    ensures IsDayMonthFixed(s) && !IsDayMonth1900(s) ==> ParseDayMonth(s) == Some((29, 2))
  {
    if ParseDayMonth(s).Some? {
      Calendar.LeapMonthLongest(1900, ParseDayMonth(s).value.1);
      assert !Calendar.IsLeap(1900);
    }
  }

  /** `date.strftime('%d.%m')`. */
  function FormatDM(dt: Calendar.Date): string {
    Pad2(dt.day) + "." + Pad2(dt.month)
  }

  /** A formatted date reads back as its own day and month. */
  lemma FormatDMParses(dt: Calendar.Date)
    requires Calendar.ValidDate(dt)
    ensures ParseDayMonth(FormatDM(dt)) == Some((dt.day, dt.month))
  {
    var s := FormatDM(dt);
    assert s[2] == '.';
    assert s[..2] == Pad2(dt.day);
    assert s[3..] == Pad2(dt.month);
  }

  /** `suggest_date`: yesterday and today, formatted as `%d.%m`. */
  function SuggestDate(today: Calendar.Date): seq<string> {
    [FormatDM(Calendar.PrevDay(today)), FormatDM(today)]
  }

  /** The corrected check accepts both dates the question suggests, on every day. */
  lemma SuggestionsAccepted(today: Calendar.Date, i: nat)
    requires Calendar.ValidDate(today) && i < 2
    ensures IsDayMonthFixed(SuggestDate(today)[i])
  {
    var dt := if i == 0 then Calendar.PrevDay(today) else today;
    FormatDMParses(dt);
    Calendar.LeapMonthLongest(dt.year, dt.month);
  }

  /** The two suggestions are different answers. */
  lemma SuggestionsDistinct(today: Calendar.Date)
    requires Calendar.ValidDate(today)
    ensures SuggestDate(today)[0] != SuggestDate(today)[1]
  {
    var y := Calendar.PrevDay(today);
    Calendar.PrevDayDiffers(today);
    FormatDMParses(y);
    FormatDMParses(today);
  }

  /** On 1 March 2024 the question suggests "29.02" and the original check rejects it. */
  lemma LeapDaySuggestionRejected()
    ensures SuggestDate(Calendar.Date(2024, 3, 1))[0] == "29.02"
    ensures !IsDayMonth1900("29.02")
    ensures IsDayMonthFixed("29.02")
  {
    var s := "29.02";
    assert Calendar.PrevDay(Calendar.Date(2024, 3, 1)) == Calendar.Date(2024, 2, 29);
    assert Pad2(29) == "29" && Pad2(2) == "02";
    assert s[..2] == "29" && s[3..] == "02";
    assert DigitsValue("29") == 29 by { assert "29"[..1] == "2"; }
    assert DigitsValue("02") == 2 by { assert "02"[..1] == "0"; }
  }

  /** The note the date question shows after a malformed date. */
  const DateHint := "\nФормат ввода: дд.мм"

  /** The date question's check, with the leap day accepted. */
  function DateValidation(): (v: Validation)
    ensures v.errMsg == Some(DateHint)
    ensures forall s :: v.check(s) == IsDayMonthFixed(s)
  {
    Validation(IsDayMonthFixed, Some(DateHint))
  }

  // ---------------------------------------------------------------------------
  // Building the questions
  // ---------------------------------------------------------------------------

  /** The class each question is built as: the date is validated, questions with options are strict. */
  function KindOf(k: QuestionKey): (kind: Kind)
    ensures kind == ValidatedKind <==> k == Date
    ensures kind == StrictKind <==> k != Date && OptionsOf(k) != []
    ensures kind == BaseKind <==> k != Date && OptionsOf(k) == []
  {
    if k == Date then ValidatedKind else if OptionsOf(k) != [] then StrictKind else BaseKind
  }

  function OptionsSpec(k: QuestionKey): Options {
    if k == Date then Suggested(SuggestDate) else Listed(OptionsOf(k))
  }

  function ValidationsOf(k: QuestionKey): seq<Validation> {
    if k == Date then [DateValidation()] else []
  }

  /** `q` is the question `build_questions` puts under `k`, before any reply. */
  ghost predicate Describes(q: Question, k: QuestionKey)
    reads q
  {
    && q.kind == KindOf(k) && q.text == QText(k) && q.nextQ == NextOf(k)
    && q.options == OptionsSpec(k) && q.validations == ValidationsOf(k) && q.note == ""
  }

  /** The arguments a question is constructed with; every question of the survey is strict. */
  datatype Blueprint = Blueprint(text: string, nextQ: NextQ, options: Options, validations: seq<Validation>)

  /** The entry of `questions_description` for `k`. */
  function BlueprintOf(k: QuestionKey): Blueprint {
    Blueprint(QText(k), NextOf(k), OptionsSpec(k), ValidationsOf(k))
  }

  /** `q` is a strict question freshly constructed from `b`. */
  ghost predicate Built(q: Question, b: Blueprint)
    reads q
  {
    && q.kind == ChooseKind(|b.validations| > 0, true, OptionsGiven(b.options))
    && q.text == b.text && q.nextQ == b.nextQ && q.options == b.options
    && q.validations == b.validations && q.note == ""
  }

  /** The class a key's question is built as is the one its entry's arguments choose. */
  lemma KindOfChosen(k: QuestionKey)
    ensures KindOf(k) == ChooseKind(|ValidationsOf(k)| > 0, true, OptionsGiven(OptionsSpec(k)))
  {
    if k != Date {
      assert |ValidationsOf(k)| == 0 && OptionsSpec(k) == Listed(OptionsOf(k));
    }
  }

  /** Constructing a key's entry gives the question that key describes. */
  lemma BuiltDescribes(q: Question, k: QuestionKey)
    requires Built(q, BlueprintOf(k))
    ensures Describes(q, k)
  {
    KindOfChosen(k);
  }

  /** One entry of `questions_description`, constructed. */
  method MakeQuestion(b: Blueprint) returns (q: Question)
    ensures fresh(q) && Built(q, b)
  {
    q := CreateQuestion(b.text, b.nextQ, b.options, true, b.validations);
  }

  /** The names of the keys `ks`. */
  function NamesOf<K>(ks: seq<K>, name: K -> string): (ns: set<string>)
    ensures forall j :: 0 <= j < |ks| ==> name(ks[j]) in ns
  {
    if ks == [] then {} else NamesOf(ks[..|ks| - 1], name) + {name(ks[|ks| - 1])}
  }

  /** Every name of `NamesOf(ks, name)` is the name of one of `ks`. */
  lemma {:induction false} NamesOfOnly<K>(ks: seq<K>, name: K -> string)
    ensures forall n :: n in NamesOf(ks, name) ==> exists j :: 0 <= j < |ks| && n == name(ks[j])
  {
    if ks != [] {
      var init := ks[..|ks| - 1];
      NamesOfOnly(init, name);
      forall n | n in NamesOf(ks, name)
        ensures exists j :: 0 <= j < |ks| && n == name(ks[j])
      {
        if n != name(ks[|ks| - 1]) {
          assert n in NamesOf(init, name);
          var j :| 0 <= j < |init| && n == name(init[j]);
          assert n == name(ks[j]);
        }
      }
    }
  }

  /**
   * A question for each key of `ks`, under the key's name, and nothing else.
   * The naming and the entries are parameters, so that the loop never unfolds them.
   */
  method AddQuestions<K>(ks: seq<K>, name: K -> string, entry: K -> Blueprint)
    returns (qs: map<string, Question>)
    requires forall a, b :: 0 <= a < b < |ks| ==> name(ks[a]) != name(ks[b])
    ensures forall j :: 0 <= j < |ks| ==> name(ks[j]) in qs && fresh(qs[name(ks[j])]) && Built(qs[name(ks[j])], entry(ks[j]))
    ensures forall n :: n in qs ==> exists j :: 0 <= j < |ks| && n == name(ks[j])
  {
    qs := map[];
    ghost var made: seq<Question> := [];
    var i := 0;
    while i < |ks|
      invariant 0 <= i <= |ks| && |made| == i
      invariant forall j :: 0 <= j < i ==> name(ks[j]) in qs && qs[name(ks[j])] == made[j]
      invariant forall j :: 0 <= j < i ==> fresh(made[j]) && Built(made[j], entry(ks[j]))
      invariant qs.Keys == NamesOf(ks[..i], name)
    {
      var q := MakeQuestion(entry(ks[i]));
      assert ks[..i + 1][..i] == ks[..i];
      qs := qs[name(ks[i]) := q];
      made := made + [q];
      i := i + 1;
    }
    assert ks[..i] == ks;
    NamesOfOnly(ks, name);
  }

  /** `build_questions`: a fresh question under each key's string value. */
  method BuildQuestions() returns (qs: map<string, Question>)
    ensures forall k: QuestionKey :: KeyName(k) in qs && fresh(qs[KeyName(k)]) && Describes(qs[KeyName(k)], k)
    ensures forall name :: name in qs ==> exists k: QuestionKey :: name == KeyName(k)
  {
    forall a, b | 0 <= a < b < |AllKeys|
      ensures KeyName(AllKeys[a]) != KeyName(AllKeys[b])
    {
      AllKeysRank(a);
      AllKeysRank(b);
      KeyNameInjective(AllKeys[a], AllKeys[b]);
    }
    qs := AddQuestions(AllKeys, KeyName, BlueprintOf);
    forall k: QuestionKey
      ensures KeyName(k) in qs && fresh(qs[KeyName(k)]) && Describes(qs[KeyName(k)], k)
    {
      AllKeysInOrder(k);
      BuiltDescribes(qs[KeyName(k)], k);
    }
  }

  /** `get_head_pain_survey`: a survey over the built questions that starts at the date. */
  method GetHeadPainSurvey() returns (s: Survey)
    ensures fresh(s)
    ensures s.NavOf() == Nav(Some(KeyName(Date)), []) && s.replies == map[]
    ensures forall k: QuestionKey :: KeyName(k) in s.questions && Describes(s.questions[KeyName(k)], k)
  {
    var qs := BuildQuestions();
    s := new Survey(qs, KeyName(Date));
  }

  // ---------------------------------------------------------------------------
  // How the built questions answer
  // ---------------------------------------------------------------------------

  /** No question of the survey leads to `Same` of its own accord. */
  lemma NextNeverSame(k: QuestionKey, answer: string)
    ensures ResolveNext(NextOf(k), answer) != Same
  {
    NextOfIsSuccessor(k, answer);
  }

  /** A built question with options is a strict question over those options. */
  lemma StrictShape(q: Question, k: QuestionKey, today: Calendar.Date)
    requires Describes(q, k) && OptionsOf(k) != []
    ensures q.kind == StrictKind && q.OptionsNow(today) == OptionsOf(k) && q.nextQ == NextOf(k)
  {
  }

  /** Every listed option of a question is accepted and leads on; no option makes a question ask again. */
  lemma OptionsNeverRepeat(q: Question, k: QuestionKey, i: nat, today: Calendar.Date)
    requires Describes(q, k) && i < |OptionsOf(k)|
    ensures q.Outcome(OptionsOf(k)[i], today) != Same
    ensures q.Outcome(OptionsOf(k)[i], today) == ResolveNext(NextOf(k), OptionsOf(k)[i])
  {
    StrictShape(q, k, today);
    OptionAccepted(q, OptionsOf(k), i, today);
    NextNeverSame(k, OptionsOf(k)[i]);
  }

  lemma OptionAccepted(q: Question, opts: seq<string>, i: nat, today: Calendar.Date)
    requires q.kind == StrictKind && q.OptionsNow(today) == opts && i < |opts|
    ensures q.Outcome(opts[i], today) == ResolveNext(q.nextQ, opts[i])
  {
    assert MatchesOption(opts[i], opts);
  }

  /**
   * The date question accepts an answer exactly when the corrected check does,
   * and then asks about the headache; on every answer but the 29th of February
   * it decides as `validate_date` as written does.
   */
  lemma DateQuestionReplies(q: Question, answer: string, today: Calendar.Date)
    requires Describes(q, Date)
    ensures q.Outcome(answer, today) == Same <==> !IsDayMonthFixed(answer)
    ensures IsDayMonthFixed(answer) ==> q.Outcome(answer, today) == Key("q_had_pain")
    ensures !IsDayMonthFixed(answer) ==> q.NoteAfter(answer, today) == DateHint
    ensures ParseDayMonth(answer) != Some((29, 2)) ==> (q.Outcome(answer, today) == Same <==> !IsDayMonth1900(answer))
  {
    var vs := ValidationsOf(Date);
    assert vs[0].check(answer) == IsDayMonthFixed(answer);
    FixedOnlyAddsLeapDay(answer);
    if !IsDayMonthFixed(answer) {
      FirstFailureUnique(vs, answer, 0);
    }
  }

  lemma LowerYes()
    ensures Lower("Да") == "да" && Lower("да") == "да"
  {
    assert Lower("Да")[0] == 'д' && Lower("Да")[1] == 'а';
    assert Lower("да")[0] == 'д' && Lower("да")[1] == 'а';
  }

  /** The yes/no options match "Да" and "Нет" but not an empty answer. */
  lemma YesNoMatches()
    ensures MatchesOption("Да", YesNo) && MatchesOption("Нет", YesNo) && !MatchesOption("", YesNo)
  {
    assert Lower(YesNo[0]) == Lower("Да");
    assert Lower(YesNo[1]) == Lower("Нет");
    assert |Lower(YesNo[0])| == 2 && |Lower(YesNo[1])| == 3 && |Lower("")| == 0;
  }

  /** The headache question: "Да" leads to the first pain question, "Нет" to the last one, an empty answer asks again. */
  lemma HadPainReplies(q: Question, today: Calendar.Date)
    requires Describes(q, HadPain)
    ensures q.Outcome("Да", today) == Key("q_first_notice")
    ensures q.Outcome("Нет", today) == Key("q_painkillers")
    ensures q.Outcome("", today) == Same
  {
    StrictShape(q, HadPain, today);
    YesNoMatches();
    HadPainYes(q, today);
    HadPainNo(q, today);
  }

  lemma HadPainYes(q: Question, today: Calendar.Date)
    requires q.kind == StrictKind && q.OptionsNow(today) == YesNo && q.nextQ == NextOf(HadPain)
    ensures q.Outcome("Да", today) == Key("q_first_notice")
  {
    LowerYes();
    OptionAccepted(q, YesNo, 0, today);
  }

  lemma HadPainNo(q: Question, today: Calendar.Date)
    requires q.kind == StrictKind && q.OptionsNow(today) == YesNo && q.nextQ == NextOf(HadPain)
    ensures q.Outcome("Нет", today) == Key("q_painkillers")
  {
    assert |Lower("Нет")| == 3;
    OptionAccepted(q, YesNo, 1, today);
  }

  // ---------------------------------------------------------------------------
  // Reaching every question through answers the survey accepts
  // ---------------------------------------------------------------------------

  /**
   * An answer the built question for `k` accepts: today's suggested date for
   * the date question, the first listed option for a question with options,
   * and any text (here the empty answer) for a question without.
   */
  function AcceptedAnswer(k: QuestionKey, today: Calendar.Date): string {
    if k == Date then SuggestDate(today)[1]
    else if OptionsOf(k) != [] then OptionsOf(k)[0]
    else ""
  }

  /** Every built question accepts its `AcceptedAnswer` and moves on along `next_q`. */
  lemma AcceptedAnswerAccepted(q: Question, k: QuestionKey, today: Calendar.Date)
    requires Describes(q, k) && Calendar.ValidDate(today)
    ensures q.Outcome(AcceptedAnswer(k, today), today) == ResolveNext(NextOf(k), AcceptedAnswer(k, today))
    ensures q.Outcome(AcceptedAnswer(k, today), today) != Same
  {
    if k == Date {
      DateSuggestionAccepted(q, today);
    } else if OptionsOf(k) != [] {
      FirstOptionAccepted(q, k, today);
    } else {
      AnyTextAccepted(q, k, AcceptedAnswer(k, today), today);
    }
  }

  /** The date question accepts today's suggested date and asks about the headache. */
  lemma DateSuggestionAccepted(q: Question, today: Calendar.Date)
    requires Describes(q, Date) && Calendar.ValidDate(today)
    ensures q.Outcome(AcceptedAnswer(Date, today), today) == ResolveNext(NextOf(Date), AcceptedAnswer(Date, today))
    ensures q.Outcome(AcceptedAnswer(Date, today), today) == Key("q_had_pain")
  {
    var a := SuggestDate(today)[1];
    assert AcceptedAnswer(Date, today) == a;
    SuggestionsAccepted(today, 1);
    DateQuestionReplies(q, a, today);
  }

  /** A question with options accepts its first option and moves on along `next_q`. */
  lemma FirstOptionAccepted(q: Question, k: QuestionKey, today: Calendar.Date)
    requires Describes(q, k) && k != Date && OptionsOf(k) != []
    ensures q.Outcome(AcceptedAnswer(k, today), today) == ResolveNext(NextOf(k), AcceptedAnswer(k, today)) != Same
  {
    assert AcceptedAnswer(k, today) == OptionsOf(k)[0];
    OptionsNeverRepeat(q, k, 0, today);
  }

  /** A question without options or checks accepts any text and moves on along its `next_q`. */
  lemma AnyTextAccepted(q: Question, k: QuestionKey, answer: string, today: Calendar.Date)
    requires Describes(q, k) && k != Date && OptionsOf(k) == []
    ensures q.Outcome(answer, today) == ResolveNext(NextOf(k), answer) != Same
  {
    NextNeverSame(k, answer);
  }

  /** The accepted answer to each of the first fourteen questions, in order. */
  function AcceptedAnswers(today: Calendar.Date): (answers: seq<string>)
    ensures |answers| == 14
    ensures forall j :: 0 <= j < 14 ==> answers[j] == AcceptedAnswer(AllKeys[j], today)
  {
    seq(14, j requires 0 <= j < 14 => AcceptedAnswer(AllKeys[j], today))
  }

  /** Accepted answers from the date question walk through all fifteen questions in order. */
  lemma WalkAcceptedVisitsAll(today: Calendar.Date)
    ensures Walk(Date, AcceptedAnswers(today)) == AllKeys
  {
    assert AcceptedAnswers(today)[1] == "Да";
    LowerYes();
    WalkInOrder(AcceptedAnswers(today));
  }

  /**
   * Along that walk, the built question at each position accepts its answer
   * and asks next the question at the following position; the last question
   * accepts any answer and ends the survey.
   */
  lemma AcceptedPathStep(q: Question, i: nat, today: Calendar.Date)
    requires i < 15 && Describes(q, AllKeys[i]) && Calendar.ValidDate(today)
    ensures i < 14 ==> q.Outcome(AcceptedAnswer(AllKeys[i], today), today) == Key(KeyName(AllKeys[i + 1]))
    ensures i == 14 ==> q.Outcome(AcceptedAnswer(AllKeys[i], today), today) == NoQuestion
  {
    var k := AllKeys[i];
    var a := AcceptedAnswer(k, today);
    AllKeysRank(i);
    AcceptedAnswerAccepted(q, k, today);
    NextOfIsSuccessor(k, a);
    if i < 14 {
      var next := Successor(k, a).value;
      if k == HadPain {
        LowerYes();
        assert next == FirstNotice;
      }
      assert Rank(next) == i + 1;
      AllKeysInOrder(next);
    }
  }
}
