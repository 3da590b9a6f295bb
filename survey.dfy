/**
 * Navigation through a survey: the current question's key, the stack of keys
 * visited before it, and the answers given so far. A reply's outcome moves the
 * survey (`Same` stays, `End` finishes, a key or `None` goes there and
 * remembers where it came from); `go_back` returns to the last remembered key.
 */
module Survey {
  import opened Opt
  import opened Text
  import opened QuestionBase
  import opened Calendar

  /** Where the survey stands: the current key (`None` once finished) and the keys to go back to. */
  datatype Nav = Nav(key: Option<string>, stack: seq<Option<string>>)

  /**
   * Setting the `question` property: `Same` changes nothing, `End` finishes
   * without remembering the current key, anything else becomes the current key
   * and pushes the old one unless it is the same key.
   */
  function Move(nav: Nav, next: Next): (r: Nav)
    ensures next.Same? ==> r == nav
    ensures next.End? ==> r.key.None? && r.stack == nav.stack
    ensures next.Key? ==> r.key == Some(next.key)
    ensures next.NoQuestion? ==> r.key.None?
    ensures next.Key? || next.NoQuestion? ==>
      r.stack == if nav.key == r.key then nav.stack else nav.stack + [nav.key]
  {
    match next
    case Same => nav
    case End => Nav(None, nav.stack)
    case Key(k) => GoTo(nav, Some(k))
    case NoQuestion => GoTo(nav, None)
  }

  function GoTo(nav: Nav, target: Option<string>): Nav {
    if nav.key != target then Nav(target, nav.stack + [nav.key]) else Nav(target, nav.stack)
  }

  /** `go_back`: pop the last remembered key; with nothing remembered, stay. */
  function Back(nav: Nav): (r: Nav)
    ensures nav.stack == [] ==> r == nav
    ensures nav.stack != [] ==> r.key == nav.stack[|nav.stack| - 1] && r.stack + [r.key] == nav.stack
  {
    if nav.stack == [] then nav else Nav(nav.stack[|nav.stack| - 1], nav.stack[..|nav.stack| - 1])
  }

  /** `stop`: finish, keeping the stack. */
  function StopNav(nav: Nav): (r: Nav)
    ensures r.key.None? && r.stack == nav.stack
  {
    Nav(None, nav.stack)
  }

  // ---------------------------------------------------------------------------
  // Navigation properties
  // ---------------------------------------------------------------------------

  /** Going to another key and back restores the survey exactly. */
  lemma BackUndoesMove(nav: Nav, next: Next)
    requires next.Key? || next.NoQuestion?
    requires Move(nav, next).key != nav.key
    ensures Back(Move(nav, next)) == nav
  {
  }

  /** `End` forgets the current question: going back after it skips to the one before. */
  lemma BackAfterEnd(nav: Nav)
    ensures nav.stack != [] ==> Back(Move(nav, End)) == Back(nav)
    ensures nav.stack == [] ==> Back(Move(nav, End)).key.None?
  {
  }

  /** A next value of `None` also finishes, but unlike `End` the finished question can be resumed. */
  lemma NoneIsResumable(nav: Nav)
    requires nav.key.Some?
    ensures Move(nav, NoQuestion).key.None?
    ensures Back(Move(nav, NoQuestion)) == nav
  {
  }

  /** Moving to the key the survey already holds changes nothing. */
  lemma SelfMoveIsNoop(nav: Nav, k: string)
    requires nav.key == Some(k)
    ensures Move(nav, Key(k)) == nav
  {
  }

  /** The outcomes of a series of replies applied in order. */
  function Moves(nav: Nav, ns: seq<Next>): (r: Nav)
    ensures |r.stack| <= |nav.stack| + |ns|
  {
    if ns == [] then nav else Move(Moves(nav, ns[..|ns| - 1]), ns[|ns| - 1])
  }

  /** Going back `n` times. */
  function Backs(nav: Nav, n: nat): Nav
    decreases n
  {
    if n == 0 then nav else Backs(Back(nav), n - 1)
  }

  /** A walk through keys, each different from the one before it. */
  predicate FreshSteps(start: Option<string>, ns: seq<Next>) {
    && (forall i :: 0 <= i < |ns| ==> ns[i].Key?)
    && (|ns| > 0 ==> Some(ns[0].key) != start)
    && (forall i :: 0 < i < |ns| ==> ns[i].key != ns[i - 1].key)
  }

  /** After a walk through `n` keys, each different from the last, `n` steps back return to the start. */
  lemma {:induction false} BacksUndoMoves(nav: Nav, ns: seq<Next>)
    requires FreshSteps(nav.key, ns)
    ensures Backs(Moves(nav, ns), |ns|) == nav
    ensures ns != [] ==> Moves(nav, ns).key == Some(ns[|ns| - 1].key)
    ensures |Moves(nav, ns).stack| == |nav.stack| + |ns|
  {
    if ns != [] {
      var init := ns[..|ns| - 1];
      assert FreshSteps(nav.key, init);
      BacksUndoMoves(nav, init);
      var mid := Moves(nav, init);
      assert mid.key != Some(ns[|ns| - 1].key);
      BackUndoesMove(mid, ns[|ns| - 1]);
      BacksAfterOne(Moves(nav, ns), |ns| - 1);
    }
  }

  lemma BacksAfterOne(nav: Nav, n: nat)
    ensures Backs(nav, n + 1) == Backs(Back(nav), n)
  {
  }

  /** `go_back` as often as wanted never leaves the first question. */
  lemma {:induction false} BacksStopAtStart(nav: Nav, n: nat)
    requires nav.stack == []
    ensures Backs(nav, n) == nav
  {
    if n > 0 {
      BacksStopAtStart(Back(nav), n - 1);
    }
  }

  /**
   * The survey the tests walk: "1" leads to "2", "2" (strict, option "3")
   * leads to "3", "3" ends. Three replies and three `go_back`s.
   */
  lemma GoBackScenario()
    ensures Moves(Nav(Some("1"), []), [Key("2"), Key("3")]) == Nav(Some("3"), [Some("1"), Some("2")])
    ensures Backs(Nav(Some("3"), [Some("1"), Some("2")]), 1).key == Some("2")
    ensures Backs(Nav(Some("3"), [Some("1"), Some("2")]), 2).key == Some("1")
    ensures Backs(Nav(Some("3"), [Some("1"), Some("2")]), 3).key == Some("1")
    ensures Moves(Nav(Some("1"), []), [Key("2"), Same, Key("3"), End]).key.None?
  {
    var ns := [Key("2"), Key("3")];
    assert ns[..1] == [Key("2")];
    assert [Key("2")][..0] == [];
    var ms := [Key("2"), Same, Key("3"), End];
    assert ms[..3] == [Key("2"), Same, Key("3")];
  }

  // ---------------------------------------------------------------------------
  // The survey object
  // ---------------------------------------------------------------------------

  /** A survey over a fixed table of questions. */
  class Survey {
    const questions: map<string, Question>
    var key: Option<string>
    var stack: seq<Option<string>>
    var replies: map<string, string>

    function NavOf(): Nav
      reads this
    {
      Nav(key, stack)
    }

    /** The `question` property: the question under the current key, if there is one. */
    function Current(): (q: Option<Question>)
      reads this
      ensures q.Some? <==> key.Some? && key.value in questions
      ensures q.Some? ==> q.value == questions[key.value]
    {
      if key.Some? && key.value in questions then Some(questions[key.value]) else None
    }

    /** `isongoing`: there is a current question. */
    predicate IsOngoing()
      reads this
    {
      Current().Some?
    }

    /** A survey starts at its first key with nothing remembered and nothing answered. */
    constructor (questions: map<string, Question>, initial: string)
      ensures this.questions == questions && key == Some(initial) && stack == [] && replies == map[]
    {
      this.questions := questions;
      key, stack, replies := Some(initial), [], map[];
    }

    /** The `question` setter. */
    method SetQuestion(next: Next)
      modifies this`key, this`stack
      ensures NavOf() == Move(old(NavOf()), next)
    {
      match next
      case Same =>
      case End =>
        key := None;
      case Key(k) =>
        if key != Some(k) {
          stack := stack + [key];
        }
        key := Some(k);
      case NoQuestion =>
        if key != None {
          stack := stack + [key];
        }
        key := None;
    }

    /**
     * `reply(answer)`: the stripped answer is recorded under the current key
     * (also when the question rejects it), then the question's reply moves the
     * survey. Replying with no current question is an error in the source.
     */
    method Reply(answer: string, today: Date)
      requires IsOngoing()
      modifies this`key, this`stack, this`replies, (questions[key.value] as Question)`note
      ensures var k := old(key.value);
        && replies == old(replies)[k := Strip(answer)]
        && NavOf() == Move(old(NavOf()), old(questions[k].Outcome(Strip(answer), today)))
        && questions[k].note == old(questions[k].NoteAfter(Strip(answer), today))
    {
      var a := Strip(answer);
      var k := key.value;
      replies := replies[k := a];
      var q := questions[k];
      var next := q.Reply(a, today);
      SetQuestion(next);
    }

    /** `go_back`. */
    method GoBack()
      modifies this`key, this`stack
      ensures NavOf() == Back(old(NavOf()))
      ensures replies == old(replies)
    {
      if stack != [] {
        key := stack[|stack| - 1];
        stack := stack[..|stack| - 1];
      }
    }

    /** `stop`. */
    method Stop()
      modifies this`key
      ensures NavOf() == StopNav(old(NavOf()))
      ensures !IsOngoing()
    {
      key := None;
    }
  }
}
