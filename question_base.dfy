/**
 * Survey questions: each question has a text, a rule for the next question,
 * optional answer options and, by kind, a check of the answer. A rejected
 * answer leaves a note that is shown under the text; the sentinels `Same`
 * (ask again) and `End` (finish) travel beside question keys.
 */
module QuestionBase {
  import opened Opt
  import opened Text
  import opened Calendar

  /**
   * What answering a question leads to: the sentinels `SAME` (-1) and `END`
   * (-2), another question's key, or Python's `None` (no next question).
   */
  datatype Next = Same | End | Key(key: string) | NoQuestion

  /** The integer values the sentinels have; they differ from each other. */
  function SentinelCode(n: Next): (code: int)
    requires n.Same? || n.End?
    ensures code < 0
    ensures n.Same? <==> code == -1
    ensures n.End? <==> code == -2
  {
    if n.Same? then -1 else -2
  }

  /** `next_q`: either a fixed value or a function of the answer. */
  datatype NextQ = Fixed(next: Next) | Computed(f: string -> Next)

  /** `BaseQuestion.reply`: call `next_q` on the answer when it is callable, otherwise return it. */
  function ResolveNext(nq: NextQ, answer: string): (r: Next)
    ensures nq.Fixed? ==> r == nq.next
    ensures nq.Computed? ==> r == nq.f(answer)
  {
    match nq
    case Fixed(n) => n
    case Computed(f) => f(answer)
  }

  /**
   * The options of a question: a list, or a function producing the list that
   * is called on every read (its only input is the date it is called on).
   */
  datatype Options = Listed(opts: seq<string>) | Suggested(f: Date -> seq<string>)

  /** Python truthiness of the `options` argument: a callable is always true. */
  predicate OptionsGiven(o: Options) {
    o.Suggested? || |o.opts| > 0
  }

  function OptionsOn(o: Options, today: Date): seq<string> {
    match o
    case Listed(l) => l
    case Suggested(f) => f(today)
  }

  /** One answer check and the note to show when it fails (`None` clears the note). */
  datatype Validation = Validation(check: string -> bool, errMsg: Option<string>)

  /** The four question classes. */
  datatype Kind = BaseKind | OptionKind | StrictKind | ValidatedKind

  /**
   * `create_question`'s choice of class: validations win, then strict options,
   * then plain options, then the base question.
   */
  function ChooseKind(hasValidations: bool, strict: bool, hasOptions: bool): (k: Kind)
    ensures k == ValidatedKind <==> hasValidations
    ensures k == StrictKind <==> !hasValidations && strict && hasOptions
    ensures k == OptionKind <==> !hasValidations && !strict && hasOptions
    ensures k == BaseKind <==> !hasValidations && !hasOptions
  {
    if hasValidations then ValidatedKind
    else if strict && hasOptions then StrictKind
    else if hasOptions then OptionKind
    else BaseKind
  }

  /** The note a strict question leaves after an answer outside its options. */
  function StrictNote(opts: seq<string>): string {
    "Ответом являются только варианты: " + Join(opts, ", ")
  }

  /** Whether `answer` matches one of `opts`, ignoring case. */
  predicate MatchesOption(answer: string, opts: seq<string>) {
    exists i :: 0 <= i < |opts| && Lower(opts[i]) == Lower(answer)
  }

  /** The position of the first validation `answer` fails, if any. */
  function FirstFailure(vs: seq<Validation>, answer: string): (r: Option<nat>)
    ensures r.Some? ==> r.value < |vs| && !vs[r.value].check(answer)
    ensures r.Some? ==> forall j :: 0 <= j < r.value ==> vs[j].check(answer)
    ensures r.None? ==> forall j :: 0 <= j < |vs| ==> vs[j].check(answer)
  {
    if vs == [] then None
    else if !vs[0].check(answer) then Some(0)
    else
      match FirstFailure(vs[1..], answer)
      case None => None
      case Some(i) => Some(i + 1)
  }

  /** The first failing validation is the only one that can be; any earlier one passed. */
  lemma FirstFailureUnique(vs: seq<Validation>, answer: string, i: nat)
    requires i < |vs| && !vs[i].check(answer) && forall j :: 0 <= j < i ==> vs[j].check(answer)
    ensures FirstFailure(vs, answer) == Some(i)
  {
  }

  /** A question: its kind, what it shows and what it leads to; only the note and the validations change. */
  class Question {
    const kind: Kind
    const text: string
    const nextQ: NextQ
    const options: Options
    var note: string
    var validations: seq<Validation>

    /** The question's `text` property: the note, when there is one, on the line below. */
    function Text(): (t: string)
      reads this
      ensures kind == BaseKind || note == "" ==> t == text
      ensures kind != BaseKind && note != "" ==> t == text + "\n" + note
    {
      if kind != BaseKind && note != "" then text + "\n" + note else text
    }

    /**
     * The `options` property: a base question has none; any other question
     * gives its list, or what its callable returns for today.
     */
    function OptionsNow(today: Date): (opts: seq<string>)
      reads this
      ensures kind == BaseKind ==> opts == []
      ensures kind != BaseKind && options.Listed? ==> opts == options.opts
      ensures kind != BaseKind && options.Suggested? ==> opts == options.f(today)
    {
      if kind == BaseKind then [] else OptionsOn(options, today)
    }

    /** What `reply(answer)` returns, given the current state. */
    function Outcome(answer: string, today: Date): (r: Next)
      reads this
      ensures kind == StrictKind && !MatchesOption(answer, OptionsNow(today)) ==> r == Same
      ensures kind == ValidatedKind && FirstFailure(validations, answer).Some? ==> r == Same
      ensures r == Same || r == ResolveNext(nextQ, answer)
      ensures kind == BaseKind || kind == OptionKind ==> r == ResolveNext(nextQ, answer)
    {
      match kind
      case StrictKind =>
        if MatchesOption(answer, OptionsNow(today)) then ResolveNext(nextQ, answer) else Same
      case ValidatedKind =>
        if FirstFailure(validations, answer).Some? then Same else ResolveNext(nextQ, answer)
      case _ => ResolveNext(nextQ, answer)
    }

    /** The note after `reply(answer)`. */
    function NoteAfter(answer: string, today: Date): string
      reads this
    {
      match kind
      case StrictKind =>
        if MatchesOption(answer, OptionsNow(today)) then note else StrictNote(OptionsNow(today))
      case ValidatedKind =>
        (match FirstFailure(validations, answer)
         case Some(i) => validations[i].errMsg.GetOr("")
         case None => note)
      case _ => note
    }

    constructor (kind: Kind, text: string, nextQ: NextQ, options: Options)
      ensures this.kind == kind && this.text == text && this.nextQ == nextQ && this.options == options
      ensures note == "" && validations == []
    {
      this.kind, this.text, this.nextQ, this.options := kind, text, nextQ, options;
      note, validations := "", [];
    }

    /** `add_validation`: validations run in the order they were added. */
    method AddValidation(v: Validation)
      modifies this`validations
      ensures validations == old(validations) + [v]
    {
      validations := validations + [v];
    }

    /**
     * `reply(answer)` of each class: a strict question rejects an answer that
     * matches none of its options; a validated question runs its validations in
     * order and stops at the first failure; a rejection sets the note and gives
     * `Same`; otherwise the base reply.
     */
    method Reply(answer: string, today: Date) returns (next: Next)
      modifies this`note
      ensures next == old(Outcome(answer, today))
      ensures note == old(NoteAfter(answer, today))
    {
      if kind == StrictKind {
        var opts := OptionsNow(today);
        var i := 0;
        var found := false;
        while i < |opts| && !found
          invariant 0 <= i <= |opts|
          invariant found <==> exists j :: 0 <= j < i && Lower(opts[j]) == Lower(answer)
        {
          found := Lower(opts[i]) == Lower(answer);
          i := i + 1;
        }
        if !found {
          note := StrictNote(opts);
          return Same;
        }
      } else if kind == ValidatedKind {
        var i := 0;
        while i < |validations|
          invariant 0 <= i <= |validations|
          invariant forall j :: 0 <= j < i ==> validations[j].check(answer)
        {
          if !validations[i].check(answer) {
            FirstFailureUnique(validations, answer, i);
            note := validations[i].errMsg.GetOr("");
            return Same;
          }
          i := i + 1;
        }
      }
      next := ResolveNext(nextQ, answer);
    }
  }

  /**
   * `create_question`: a question of the class `ChooseKind` picks, with the
   * validations added in the order given.
   */
  method CreateQuestion(text: string, nextQ: NextQ, options: Options, strict: bool, validations: seq<Validation>)
    returns (q: Question)
    ensures fresh(q)
    ensures q.kind == ChooseKind(|validations| > 0, strict, OptionsGiven(options))
    ensures q.text == text && q.nextQ == nextQ && q.options == options && q.note == ""
    ensures q.validations == validations
  {
    var kind := ChooseKind(|validations| > 0, strict, OptionsGiven(options));
    q := new Question(kind, text, nextQ, options);
    var i := 0;
    while i < |validations|
      invariant 0 <= i <= |validations|
      invariant q.kind == kind && q.text == text && q.nextQ == nextQ && q.options == options && q.note == ""
      invariant q.validations == validations[..i]
    {
      q.AddValidation(validations[i]);
      assert validations[..i + 1] == validations[..i] + [validations[i]];
      i := i + 1;
    }
  }

  // ---------------------------------------------------------------------------
  // Properties of replies
  // ---------------------------------------------------------------------------

  /** A strict question accepts an answer exactly when it matches an option, in any case. */
  lemma StrictAcceptsIff(q: Question, answer: string, today: Date)
    requires q.kind == StrictKind
    ensures q.Outcome(answer, today) == Same
      <==> !MatchesOption(answer, q.OptionsNow(today)) || ResolveNext(q.nextQ, answer) == Same
  {
  }

  /** Case does not matter to a strict question. */
  lemma StrictIgnoresCase(q: Question, a: string, b: string, today: Date)
    requires q.kind == StrictKind && Lower(a) == Lower(b)
    ensures MatchesOption(a, q.OptionsNow(today)) <==> MatchesOption(b, q.OptionsNow(today))
  {
  }

  /**
   * Only a rejection writes the note, and a rejection always writes it: an
   * accepted answer leaves the note as it was.
   */
  lemma NoteOnlyOnRejection(q: Question, answer: string, today: Date)
    ensures q.Outcome(answer, today) != Same ==> q.NoteAfter(answer, today) == q.note
    ensures q.kind == StrictKind && q.Outcome(answer, today) == Same && MatchesOption(answer, q.OptionsNow(today)) ==>
      q.NoteAfter(answer, today) == q.note
    ensures q.kind == StrictKind && !MatchesOption(answer, q.OptionsNow(today)) ==>
      q.NoteAfter(answer, today) == StrictNote(q.OptionsNow(today))
  {
  }

  /**
   * A validated question ignores its options: with every validation passing,
   * any answer gets the base reply.
   */
  lemma ValidatedIgnoresOptions(q: Question, answer: string, today: Date)
    requires q.kind == ValidatedKind
    requires forall j :: 0 <= j < |q.validations| ==> q.validations[j].check(answer)
    ensures q.Outcome(answer, today) == ResolveNext(q.nextQ, answer)
  {
  }

  /** The note a failed validation leaves is that validation's message, and later checks do not matter. */
  lemma {:induction false} ValidationStopsAtFirst(vs: seq<Validation>, extra: seq<Validation>, answer: string)
    requires FirstFailure(vs, answer).Some?
    ensures FirstFailure(vs + extra, answer) == FirstFailure(vs, answer)
  {
    var i := FirstFailure(vs, answer).value;
    assert (vs + extra)[i] == vs[i];
    assert forall j :: 0 <= j < i ==> (vs + extra)[j] == vs[j];
    FirstFailureUnique(vs + extra, answer, i);
  }
}
