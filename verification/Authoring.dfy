/** What an author may save, and why every question that gets past the check can be answered right. */
module Authoring {
  import opened Prelude
  import opened Quiz
  import opened Text
  import opened Sorting
  import opened GraphMatching
  import opened Grading

  datatype NewOption = NewOption(content: string, isCorrect: bool, matchContent: string)

  datatype NewQuestion = NewQuestion(
    kind: QuestionType,
    prompt: string,
    points: int,
    explanation: string,
    caseSensitive: bool,
    accepted: seq<seq<string>>,
    spec: Option<Spec>,
    options: seq<NewOption>)

  predicate Blank(s: string) {
    TrimSpace(s) == ""
  }

  function CountCorrect(options: seq<NewOption>): nat {
    if options == [] then 0
    else CountCorrect(options[..|options| - 1]) + (if options[|options| - 1].isCorrect then 1 else 0)
  }

  /** The rules one type adds to those every question obeys. */
  predicate KindRules(rt: Runtime, n: NewQuestion) {
    var correct := CountCorrect(n.options);
    match n.kind
    case TrueFalse => |n.options| == 2 && correct == 1
    case SingleChoice | ImageAnswering => |n.options| >= 2 && correct == 1
    case MultipleChoice => |n.options| >= 2 && correct != 0 && correct != |n.options|
    case Ordering | Puzzle => |n.options| >= 2 && correct == 0
    case Matching | ImageMatching => |n.options| >= 2 && forall o :: o in n.options ==> !Blank(o.matchContent)
    case ShortAnswer => |n.accepted| == 1
    case FillBlanks => |n.accepted| != 0
    case OpenEnded | DrawImage => n.options == []
    case Range =>
      n.options == [] && |n.accepted| == 1 && |n.accepted[0]| == 2 &&
      var lo := rt.parseFloat(TrimSpace(n.accepted[0][0]));
      var hi := rt.parseFloat(TrimSpace(n.accepted[0][1]));
      lo.Some? && hi.Some? && lo.value <= hi.value
    case Pin =>
      n.options == [] && n.spec.Some? && !Blank(n.spec.value.image) && n.spec.value.regions != [] &&
      forall reg :: reg in n.spec.value.regions ==> reg.w > 0.0 && reg.h > 0.0
    case Graph =>
      n.options == [] && n.spec.Some? && n.spec.value.points != [] && n.spec.value.tolerance >= 0.0
    case Unknown(_) => false
  }

  /** At least one accepted spelling, and none of them blank. */
  predicate Spelled(spellings: seq<string>) {
    spellings != [] && forall s :: s in spellings ==> !Blank(s)
  }

  predicate AcceptedRules(n: NewQuestion) {
    match n.kind
    case ShortAnswer | FillBlanks => forall i :: 0 <= i < |n.accepted| ==> Spelled(n.accepted[i])
    case Range => true
    case _ =>
      && n.accepted == []
      && (n.kind != Matching && n.kind != ImageMatching ==> forall o :: o in n.options ==> Blank(o.matchContent))
  }

  predicate SpecRules(n: NewQuestion) {
    n.kind == Pin || n.kind == Graph || n.kind == DrawImage || n.spec.None?
  }

  predicate Valid(rt: Runtime, n: NewQuestion) {
    && ValidQuestionType(n.kind)
    && !Blank(n.prompt)
    && n.points >= 0
    && (forall o :: o in n.options ==> !Blank(o.content))
    && KindRules(rt, n)
    && AcceptedRules(n)
    && SpecRules(n)
    && (n.options != [] || n.accepted != [] || n.spec.Some? || IsManual(n.kind))
  }

  // ---- The check itself ----

  method Validate(rt: Runtime, n: NewQuestion) returns (ok: bool)
    ensures ok == Valid(rt, n)
  {
    if !ValidQuestionType(n.kind) || Blank(n.prompt) || n.points < 0 {
      return false;
    }
    var correct := 0;
    for i := 0 to |n.options|
      invariant correct == CountCorrect(n.options[..i])
      invariant forall k :: 0 <= k < i ==> !Blank(n.options[k].content)
    {
      assert n.options[..i + 1][..i] == n.options[..i];
      if Blank(n.options[i].content) {
        return false;
      }
      if n.options[i].isCorrect {
        correct := correct + 1;
      }
    }
    assert n.options[..|n.options|] == n.options;
    var ok1 := ValidateKind(rt, n, correct);
    if !ok1 {
      return false;
    }
    var ok2 := ValidateAccepted(n);
    if !ok2 {
      return false;
    }
    if n.kind != Pin && n.kind != Graph && n.kind != DrawImage && n.spec.Some? {
      return false;
    }
    return !(|n.options| == 0 && |n.accepted| == 0 && n.spec.None? && !IsManual(n.kind));
  }

  method ValidateKind(rt: Runtime, n: NewQuestion, correct: nat) returns (ok: bool)
    requires correct == CountCorrect(n.options)
    ensures ok == KindRules(rt, n)
  {
    match n.kind {
      case TrueFalse => return |n.options| == 2 && correct == 1;
      case SingleChoice | ImageAnswering => return |n.options| >= 2 && correct == 1;
      case MultipleChoice => return |n.options| >= 2 && correct != 0 && correct != |n.options|;
      case Ordering | Puzzle => return |n.options| >= 2 && !(correct > 0);
      case Matching | ImageMatching =>
        if |n.options| < 2 {
          return false;
        }
        for i := 0 to |n.options|
          invariant forall k :: 0 <= k < i ==> !Blank(n.options[k].matchContent)
        {
          if Blank(n.options[i].matchContent) {
            return false;
          }
        }
        return true;
      case ShortAnswer => return |n.accepted| == 1;
      case FillBlanks => return |n.accepted| != 0;
      case OpenEnded | DrawImage => return |n.options| == 0;
      case Range =>
        if |n.options| > 0 || |n.accepted| != 1 || |n.accepted[0]| != 2 {
          return false;
        }
        var lo := rt.parseFloat(TrimSpace(n.accepted[0][0]));
        var hi := rt.parseFloat(TrimSpace(n.accepted[0][1]));
        return lo.Some? && hi.Some? && !(lo.value > hi.value);
      case Pin =>
        if |n.options| > 0 || n.spec.None? || Blank(n.spec.value.image) || |n.spec.value.regions| == 0 {
          return false;
        }
        var regions := n.spec.value.regions;
        for i := 0 to |regions|
          invariant forall k :: 0 <= k < i ==> regions[k].w > 0.0 && regions[k].h > 0.0
        {
          if regions[i].w <= 0.0 || regions[i].h <= 0.0 {
            return false;
          }
        }
        return true;
      case Graph =>
        return |n.options| == 0 && n.spec.Some? && |n.spec.value.points| != 0 && !(n.spec.value.tolerance < 0.0);
      case Unknown(_) => return false;
    }
  }

  method CheckSpellings(spellings: seq<string>) returns (ok: bool)
    ensures ok == Spelled(spellings)
  {
    for i := 0 to |spellings|
      invariant forall k :: 0 <= k < i ==> !Blank(spellings[k])
    {
      if Blank(spellings[i]) {
        return false;
      }
    }
    return |spellings| != 0;
  }

  method ValidateAccepted(n: NewQuestion) returns (ok: bool)
    ensures ok == AcceptedRules(n)
  {
    if n.kind == ShortAnswer || n.kind == FillBlanks {
      for i := 0 to |n.accepted|
        invariant forall k :: 0 <= k < i ==> Spelled(n.accepted[k])
      {
        var spelled := CheckSpellings(n.accepted[i]);
        if !spelled {
          return false;
        }
      }
      return true;
    } else if n.kind == Range {
      return true;
    }
    if |n.accepted| > 0 {
      return false;
    }
    if n.kind != Matching && n.kind != ImageMatching {
      for i := 0 to |n.options|
        invariant forall k :: 0 <= k < i ==> Blank(n.options[k].matchContent)
      {
        if !Blank(n.options[i].matchContent) {
          return false;
        }
      }
    }
    return true;
  }

  // ---- From the author's form to the stored question ----

  /** What the database chooses when a question is written: fresh, distinct, non-zero ids. */
  datatype FreshIds = FreshIds(question: Id, options: seq<Id>, matches: seq<Id>)

  ghost predicate UsableFor(ids: FreshIds, n: NewQuestion) {
    && |ids.options| == |ids.matches| == |n.options|
    && Distinct(ids.options) && Distinct(ids.matches)
    && NIL !in ids.options && NIL !in ids.matches
  }

  /** The question CreateQuestion leaves in the tables; its options are numbered in the author's order. */
  function Stored(n: NewQuestion, ids: FreshIds, position: int): (q: Question)
    requires |ids.options| == |ids.matches| == |n.options|
    ensures |q.options| == |n.options|
  {
    Question(ids.question, n.kind, n.prompt, n.points, position, n.explanation, n.caseSensitive, n.accepted, n.spec,
      seq(|n.options|, i requires 0 <= i < |n.options| =>
        Choice(ids.options[i], n.options[i].content, i, n.options[i].isCorrect, ids.matches[i],
               n.options[i].matchContent)))
  }

  /** The ids the database chose, the position it was given, and the options numbered as the author had them. */
  lemma StoredAsNumbered(n: NewQuestion, ids: FreshIds, position: int)
    requires |ids.options| == |ids.matches| == |n.options|
    ensures var q := Stored(n, ids, position);
            && q.id == ids.question && q.position == position
            && forall i :: 0 <= i < |q.options| ==>
                 && (q.options[i].id, q.options[i].matchId) == (ids.options[i], ids.matches[i])
                 && q.options[i].position == i
                 && (q.options[i].content, q.options[i].isCorrect, q.options[i].matchContent) ==
                    (n.options[i].content, n.options[i].isCorrect, n.options[i].matchContent)
  {
  }

  /** The answer a question's own key describes. */
  function KeyResponse(rt: Runtime, q: Question): Response {
    var firsts := seq(|q.accepted|, i requires 0 <= i < |q.accepted| =>
      if q.accepted[i] == [] then "" else q.accepted[i][0]);
    Response(
      CorrectIds(q.options),
      if firsts == [] then "" else firsts[0],
      firsts,
      Ids(SortBy(q.options, PositionOf)),
      AuthoredPairs(q.options),
      if firsts == [] then None else rt.parseFloat(TrimSpace(firsts[0])),
      if q.spec.Some? && q.spec.value.regions != []
        then Some(Point(q.spec.value.regions[0].x, q.spec.value.regions[0].y)) else None,
      if q.spec.Some? then q.spec.value.points else [],
      "")
  }

  lemma {:induction false} CorrectIdsCounted(options: seq<Choice>, news: seq<NewOption>)
    requires |options| == |news|
    requires forall i :: 0 <= i < |news| ==> options[i].isCorrect == news[i].isCorrect
    ensures |CorrectIds(options)| == CountCorrect(news)
  {
    if news != [] {
      CorrectIdsCounted(options[..|news| - 1], news[..|news| - 1]);
    }
  }

  lemma StoredOrderIsAuthored(n: NewQuestion, ids: FreshIds, position: int)
    requires UsableFor(ids, n)
    ensures Ids(SortBy(Stored(n, ids, position).options, PositionOf)) == ids.options
  {
    var options := Stored(n, ids, position).options;
    SortOfSorted(options, PositionOf);
  }

  lemma KeyPassesBlanks(rt: Runtime, q: Question)
    requires q.accepted != []
    requires forall i :: 0 <= i < |q.accepted| ==> Spelled(q.accepted[i])
    ensures BlanksRight(rt, q, KeyResponse(rt, q).blanks)
  {
    var typed := KeyResponse(rt, q).blanks;
    forall i | 0 <= i < |typed| ensures BlankRight(rt, typed[i], q.accepted[i], q.caseSensitive) {
      assert Spelled(q.accepted[i]) && q.accepted[i][0] in q.accepted[i];
      NormaliseBlank(typed[i], q.caseSensitive, rt.lower);
    }
  }

  lemma KeyPassesMatching(rt: Runtime, n: NewQuestion, ids: FreshIds, position: int)
    requires UsableFor(ids, n) && n.options != []
    ensures MatchingRight(Stored(n, ids, position), KeyResponse(rt, Stored(n, ids, position)).pairs)
  {
    var q := Stored(n, ids, position);
    assert Ids(q.options) == ids.options;
    forall o | o in q.options ensures o.matchId != NIL {
      var i :| 0 <= i < |q.options| && q.options[i] == o;
      assert ids.matches[i] in ids.matches;
    }
    MatchingHasOneAnswer(q, AuthoredPairs(q.options));
  }

  lemma KeyPassesGraph(spec: Spec)
    requires spec.points != [] && spec.tolerance >= 0.0
    ensures GraphVerdict(Some(spec), spec.points)
  {
    GreedyWalksTheDiagonal(spec.points, spec.points, spec.tolerance, 0, |spec.points|);
    assert Below(0) == {};
  }

  lemma KeyPassesChoices(rt: Runtime, n: NewQuestion, ids: FreshIds, position: int)
    requires |ids.options| == |ids.matches| == |n.options|
    ensures var q := Stored(n, ids, position);
            && (CountCorrect(n.options) == 1 ==> SingleChoiceRight(q, KeyResponse(rt, q).choices))
            && (CountCorrect(n.options) != 0 ==> MultipleChoiceRight(q, KeyResponse(rt, q).choices))
  {
    CorrectIdsCounted(Stored(n, ids, position).options, n.options);
  }

  lemma KeyPassesPin(rt: Runtime, q: Question)
    requires q.spec.Some? && q.spec.value.regions != []
    requires forall reg :: reg in q.spec.value.regions ==> reg.w > 0.0 && reg.h > 0.0
    ensures PinRight(q, KeyResponse(rt, q).point)
  {
    var reg := q.spec.value.regions[0];
    assert reg in q.spec.value.regions && Inside(Point(reg.x, reg.y), reg);
  }

  lemma KeyPassesOrdering(rt: Runtime, q: Question)
    requires q.options != []
    ensures OrderingRight(q, KeyResponse(rt, q).order)
  {
  }

  lemma KeyPassesShortAnswer(rt: Runtime, q: Question)
    requires |q.accepted| == 1 && Spelled(q.accepted[0])
    ensures BlanksRight(rt, q, [KeyResponse(rt, q).text])
  {
    KeyPassesBlanks(rt, q);
    assert KeyResponse(rt, q).blanks == [KeyResponse(rt, q).text];
  }

  lemma KeyPassesRange(rt: Runtime, n: NewQuestion, ids: FreshIds, position: int)
    requires KindRules(rt, n) && n.kind == Range
    requires |ids.options| == |ids.matches| == |n.options|
    ensures var q := Stored(n, ids, position); RangeRight(rt, q, KeyResponse(rt, q).number)
  {
  }

  /** Every machine-graded question an author can save is answered right, for all its points, by its own key. */
  lemma ValidQuestionsAreAnswerable(rt: Runtime, n: NewQuestion, ids: FreshIds, position: int)
    requires Valid(rt, n) && UsableFor(ids, n)
    requires !IsManual(n.kind)
    ensures var q := Stored(n, ids, position);
            Grade(rt, q, KeyResponse(rt, q)) == Verdict(false, true, n.points)
  {
    var q := Stored(n, ids, position);
    match n.kind
    case TrueFalse | SingleChoice | ImageAnswering | MultipleChoice => KeyPassesChoices(rt, n, ids, position);
    case Ordering | Puzzle => KeyPassesOrdering(rt, q);
    case Matching | ImageMatching => KeyPassesMatching(rt, n, ids, position);
    case ShortAnswer => KeyPassesShortAnswer(rt, q);
    case FillBlanks => KeyPassesBlanks(rt, q);
    case Pin => KeyPassesPin(rt, q);
    case Graph => KeyPassesGraph(n.spec.value);
    case Range => KeyPassesRange(rt, n, ids, position);
  }

  /** An ordering or a puzzle is answered right by exactly one sequence: the items as the author wrote them. */
  lemma OrderingHasOneAnswer(n: NewQuestion, ids: FreshIds, position: int, order: seq<Id>)
    requires UsableFor(ids, n) && n.options != []
    ensures OrderingRight(Stored(n, ids, position), order) <==> order == ids.options
  {
    StoredOrderIsAuthored(n, ids, position);
  }

  lemma CorrectIdsOfStored(n: NewQuestion, ids: FreshIds, position: int, id: Id)
    requires UsableFor(ids, n)
    ensures id in CorrectIds(Stored(n, ids, position).options) <==>
            exists i :: 0 <= i < |n.options| && n.options[i].isCorrect && ids.options[i] == id
  {
    var options := Stored(n, ids, position).options;
    CorrectIdsAre(options, id);
    if id in CorrectIds(options) {
      var o :| o in options && o.isCorrect && o.id == id;
      var i :| 0 <= i < |options| && options[i] == o;
      assert n.options[i].isCorrect && ids.options[i] == id;
    }
    if i :| 0 <= i < |n.options| && n.options[i].isCorrect && ids.options[i] == id {
      assert options[i] in options && options[i].isCorrect && options[i].id == id;
    }
  }

  /** A single-choice question that was saved has one right option; naming another, or several, is wrong. */
  lemma SingleChoiceHasOneAnswer(rt: Runtime, n: NewQuestion, ids: FreshIds, position: int, choices: seq<Id>)
    requires CountCorrect(n.options) == 1 && UsableFor(ids, n)
    ensures SingleChoiceRight(Stored(n, ids, position), choices) <==>
            exists i :: 0 <= i < |n.options| && n.options[i].isCorrect && choices == [ids.options[i]]
  {
    var right := CorrectIds(Stored(n, ids, position).options);
    CorrectIdsCounted(Stored(n, ids, position).options, n.options);
    assert right == [right[0]];
    CorrectIdsOfStored(n, ids, position, right[0]);
    if i :| 0 <= i < |n.options| && n.options[i].isCorrect && choices == [ids.options[i]] {
      CorrectIdsOfStored(n, ids, position, ids.options[i]);
    }
  }
}
