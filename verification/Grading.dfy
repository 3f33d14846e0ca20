/** Judging answers: one verdict per question, credit all-or-nothing. */
module Grading {
  import opened Prelude
  import opened Quiz
  import opened Text
  import opened Sorting
  import opened GraphMatching

  /** The library calls grading makes: strconv.ParseFloat and the rune mapping of strings.ToLower. */
  datatype Runtime = Runtime(parseFloat: string -> Option<real>, lower: char -> char)

  datatype Verdict = Verdict(manual: bool, correct: bool, points: int)

  const NO_CREDIT := Verdict(false, false, 0)

  // ---- What each type's answer key demands ----

  function CorrectIds(options: seq<Choice>): seq<Id> {
    if options == [] then []
    else
      var init, last := options[..|options| - 1], options[|options| - 1];
      CorrectIds(init) + (if last.isCorrect then [last.id] else [])
  }

  lemma {:induction false} CorrectIdsAre(options: seq<Choice>, id: Id)
    ensures id in CorrectIds(options) <==> exists o :: o in options && o.isCorrect && o.id == id
  {
    if options != [] {
      var init, last := options[..|options| - 1], options[|options| - 1];
      CorrectIdsAre(init, id);
      assert options == init + [last];
    }
  }

  function PositionOf(o: Choice): int { o.position }

  function Ids(options: seq<Choice>): (ids: seq<Id>)
    ensures |ids| == |options| && forall i :: 0 <= i < |ids| ==> ids[i] == options[i].id
  {
    seq(|options|, i requires 0 <= i < |options| => options[i].id)
  }

  /** Go reads a missing map key as the zero value. */
  function Lookup(pairs: map<Id, Id>, id: Id): Id {
    if id in pairs then pairs[id] else NIL
  }

  predicate SingleChoiceRight(q: Question, choices: seq<Id>) {
    |choices| == 1 && |CorrectIds(q.options)| == 1 && choices[0] == CorrectIds(q.options)[0]
  }

  predicate MultipleChoiceRight(q: Question, choices: seq<Id>) {
    CorrectIds(q.options) != [] && Elements(choices) == Elements(CorrectIds(q.options))
  }

  predicate BlankRight(rt: Runtime, given: string, accepted: seq<string>, caseSensitive: bool) {
    var g := Normalise(given, caseSensitive, rt.lower);
    g != "" && exists w :: w in accepted && g == Normalise(w, caseSensitive, rt.lower)
  }

  predicate BlanksRight(rt: Runtime, q: Question, typed: seq<string>) {
    && q.accepted != []
    && |typed| == |q.accepted|
    && forall i :: 0 <= i < |typed| ==> BlankRight(rt, typed[i], q.accepted[i], q.caseSensitive)
  }

  predicate OrderingRight(q: Question, order: seq<Id>) {
    q.options != [] && order == Ids(SortBy(q.options, PositionOf))
  }

  predicate MatchingRight(q: Question, pairs: map<Id, Id>) {
    && q.options != []
    && |pairs| == |q.options|
    && forall i :: 0 <= i < |q.options| ==> Lookup(pairs, q.options[i].id) == q.options[i].matchId
  }

  predicate RangeRight(rt: Runtime, q: Question, number: Option<real>) {
    && number.Some?
    && |q.accepted| == 1 && |q.accepted[0]| == 2
    && var lo := rt.parseFloat(TrimSpace(q.accepted[0][0]));
       var hi := rt.parseFloat(TrimSpace(q.accepted[0][1]));
       lo.Some? && hi.Some? && lo.value <= number.value <= hi.value
  }

  predicate Inside(p: Point, reg: Region) {
    reg.x <= p.x <= reg.x + reg.w && reg.y <= p.y <= reg.y + reg.h
  }

  predicate PinRight(q: Question, point: Option<Point>) {
    point.Some? && q.spec.Some? && exists reg :: reg in q.spec.value.regions && Inside(point.value, reg)
  }

  function Judge(q: Question, right: bool): Verdict {
    if right then Verdict(false, true, q.points) else NO_CREDIT
  }

  function Grade(rt: Runtime, q: Question, r: Response): Verdict {
    match q.kind
    case OpenEnded | DrawImage => Verdict(true, false, 0)
    case TrueFalse | SingleChoice | ImageAnswering => Judge(q, SingleChoiceRight(q, r.choices))
    case MultipleChoice => Judge(q, MultipleChoiceRight(q, r.choices))
    case ShortAnswer => Judge(q, BlanksRight(rt, q, [r.text]))
    case FillBlanks => Judge(q, BlanksRight(rt, q, r.blanks))
    case Ordering | Puzzle => Judge(q, OrderingRight(q, r.order))
    case Matching | ImageMatching => Judge(q, MatchingRight(q, r.pairs))
    case Range => Judge(q, RangeRight(rt, q, r.number))
    case Pin => Judge(q, PinRight(q, r.point))
    case Graph => Judge(q, GraphVerdict(q.spec, r.points))
    case Unknown(_) => NO_CREDIT
  }

  // ---- Grading each type, as the loops it is ----

  method GradeSingleChoice(q: Question, r: Response) returns (ok: bool)
    ensures ok == SingleChoiceRight(q, r.choices)
  {
    if |r.choices| != 1 {
      return false;
    }
    var correctId, found := NIL, 0;
    for i := 0 to |q.options|
      invariant found == |CorrectIds(q.options[..i])|
      invariant found > 0 ==> correctId == CorrectIds(q.options[..i])[found - 1]
    {
      assert q.options[..i + 1][..i] == q.options[..i];
      if q.options[i].isCorrect {
        correctId := q.options[i].id;
        found := found + 1;
      }
    }
    assert q.options[..|q.options|] == q.options;
    if found != 1 {
      return false;
    }
    return r.choices[0] == correctId;
  }

  method GradeMultipleChoice(q: Question, r: Response) returns (ok: bool)
    ensures ok == MultipleChoiceRight(q, r.choices)
  {
    var want: set<Id> := {};
    for i := 0 to |q.options|
      invariant want == Elements(CorrectIds(q.options[..i]))
    {
      assert q.options[..i + 1][..i] == q.options[..i];
      if q.options[i].isCorrect {
        want := want + {q.options[i].id};
      }
    }
    assert q.options[..|q.options|] == q.options;
    SomethingIsSomething(CorrectIds(q.options));
    if |want| == 0 {
      return false;
    }
    var got: set<Id> := {};
    for i := 0 to |r.choices|
      invariant got == Elements(r.choices[..i])
    {
      got := got + {r.choices[i]};
    }
    assert got == Elements(r.choices) by { assert r.choices[..|r.choices|] == r.choices; }
    if |got| != |want| {
      return false;
    }
    ok := HasEvery(got, want);
    if ok {
      SubsetIsNoLarger(want, got);
    }
  }

  /** The closing loop of gradeMultipleChoice: every wanted id was given. */
  method HasEvery(got: set<Id>, want: set<Id>) returns (all: bool)
    ensures all == (want <= got)
  {
    var pending := want;
    while pending != {}
      invariant pending <= want
      invariant want - pending <= got
    {
      var id :| id in pending;
      if id !in got {
        return false;
      }
      pending := pending - {id};
    }
    return true;
  }

  method GradeBlanks(rt: Runtime, q: Question, typed: seq<string>) returns (ok: bool)
    ensures ok == BlanksRight(rt, q, typed)
  {
    if |q.accepted| == 0 || |typed| != |q.accepted| {
      return false;
    }
    for i := 0 to |q.accepted|
      invariant forall k :: 0 <= k < i ==> BlankRight(rt, typed[k], q.accepted[k], q.caseSensitive)
    {
      var given := Normalise(typed[i], q.caseSensitive, rt.lower);
      if given == "" {
        return false;
      }
      var matched := false;
      for j := 0 to |q.accepted[i]|
        invariant matched == exists k :: 0 <= k < j && given == Normalise(q.accepted[i][k], q.caseSensitive, rt.lower)
      {
        if given == Normalise(q.accepted[i][j], q.caseSensitive, rt.lower) {
          matched := true;
        }
      }
      if !matched {
        return false;
      }
    }
    return true;
  }

  method GradeOrdering(q: Question, r: Response) returns (ok: bool)
    ensures ok == OrderingRight(q, r.order)
  {
    if |q.options| == 0 || |r.order| != |q.options| {
      return false;
    }
    var want := SortBy(q.options, PositionOf);
    for i := 0 to |want|
      invariant r.order[..i] == Ids(want)[..i]
    {
      if r.order[i] != want[i].id {
        assert Ids(want)[i] != r.order[i];
        return false;
      }
    }
    assert r.order == r.order[..|want|] == Ids(want)[..|want|] == Ids(want);
    return true;
  }

  method GradeMatching(q: Question, r: Response) returns (ok: bool)
    ensures ok == MatchingRight(q, r.pairs)
  {
    if |q.options| == 0 || |r.pairs| != |q.options| {
      return false;
    }
    for i := 0 to |q.options|
      invariant forall k :: 0 <= k < i ==> Lookup(r.pairs, q.options[k].id) == q.options[k].matchId
    {
      if Lookup(r.pairs, q.options[i].id) != q.options[i].matchId {
        return false;
      }
    }
    return true;
  }

  method GradePin(q: Question, r: Response) returns (ok: bool)
    ensures ok == PinRight(q, r.point)
  {
    if r.point.None? || q.spec.None? || |q.spec.value.regions| == 0 {
      return false;
    }
    var regions := q.spec.value.regions;
    for i := 0 to |regions|
      invariant forall k :: 0 <= k < i ==> !Inside(r.point.value, regions[k])
    {
      if Inside(r.point.value, regions[i]) {
        return true;
      }
    }
    return false;
  }

  method GradeAnswer(rt: Runtime, q: Question, r: Response) returns (v: Verdict)
    ensures v == Grade(rt, q, r)
  {
    if IsManual(q.kind) {
      return Verdict(true, false, 0);
    }
    var correct := false;
    match q.kind {
      case TrueFalse | SingleChoice | ImageAnswering => correct := GradeSingleChoice(q, r);
      case MultipleChoice => correct := GradeMultipleChoice(q, r);
      case ShortAnswer => correct := GradeBlanks(rt, q, [r.text]);
      case FillBlanks => correct := GradeBlanks(rt, q, r.blanks);
      case Ordering | Puzzle => correct := GradeOrdering(q, r);
      case Matching | ImageMatching => correct := GradeMatching(q, r);
      case Range => correct := RangeRight(rt, q, r.number);
      case Pin => correct := GradePin(q, r);
      case Graph => correct := GradeGraph(q.spec, r.points);
      case OpenEnded | DrawImage | Unknown(_) => return NO_CREDIT;
    }
    if !correct {
      return NO_CREDIT;
    }
    return Verdict(false, true, q.points);
  }

  // ---- A whole attempt ----

  datatype AnswerGrade = AnswerGrade(questionId: Id, verdict: Verdict)

  datatype Outcome = Outcome(answers: seq<AnswerGrade>, points: int, maxPoints: int, awaitingReview: bool)

  function ResponseTo(responses: map<Id, Response>, id: Id): Response {
    if id in responses then responses[id] else EMPTY_RESPONSE
  }

  function Grades(rt: Runtime, questions: seq<Question>, responses: map<Id, Response>): (answers: seq<AnswerGrade>)
    ensures |answers| == |questions|
    ensures forall i :: 0 <= i < |answers| ==>
      answers[i] == AnswerGrade(questions[i].id, Grade(rt, questions[i], ResponseTo(responses, questions[i].id)))
  {
    seq(|questions|, i requires 0 <= i < |questions| =>
      AnswerGrade(questions[i].id, Grade(rt, questions[i], ResponseTo(responses, questions[i].id))))
  }

  function Awarded(answers: seq<AnswerGrade>): int {
    if answers == [] then 0 else Awarded(answers[..|answers| - 1]) + answers[|answers| - 1].verdict.points
  }

  function Worth(questions: seq<Question>): int {
    if questions == [] then 0 else Worth(questions[..|questions| - 1]) + questions[|questions| - 1].points
  }

  /** At least one question needs a person. */
  predicate AnyManual(questions: seq<Question>) {
    questions != [] && (AnyManual(questions[..|questions| - 1]) || IsManual(questions[|questions| - 1].kind))
  }

  lemma {:induction false} AnyManualIs(questions: seq<Question>)
    ensures AnyManual(questions) <==> exists q :: q in questions && IsManual(q.kind)
  {
    if questions != [] {
      AnyManualIs(questions[..|questions| - 1]);
      assert questions == questions[..|questions| - 1] + [questions[|questions| - 1]];
    }
  }

  lemma OneMoreQuestion(answers: seq<AnswerGrade>, questions: seq<Question>, i: nat)
    requires i < |answers| == |questions|
    ensures Awarded(answers[..i + 1]) == Awarded(answers[..i]) + answers[i].verdict.points
    ensures Worth(questions[..i + 1]) == Worth(questions[..i]) + questions[i].points
    ensures AnyManual(questions[..i + 1]) == (AnyManual(questions[..i]) || IsManual(questions[i].kind))
    ensures answers[..i + 1] == answers[..i] + [answers[i]]
  {
    assert answers[..i + 1][..i] == answers[..i] && questions[..i + 1][..i] == questions[..i];
  }

  lemma OnlyPeopleMarkManualQuestions(rt: Runtime, q: Question, r: Response)
    ensures Grade(rt, q, r).manual == IsManual(q.kind)
  {
  }

  method GradeAttempt(rt: Runtime, questions: seq<Question>, responses: map<Id, Response>) returns (result: Outcome)
    ensures result == Outcome(Grades(rt, questions, responses), Awarded(Grades(rt, questions, responses)),
                              Worth(questions), AnyManual(questions))
  {
    ghost var all := Grades(rt, questions, responses);
    var answers: seq<AnswerGrade>, points, maxPoints, awaiting := [], 0, 0, false;
    for i := 0 to |questions|
      invariant answers == all[..i]
      invariant points == Awarded(all[..i])
      invariant maxPoints == Worth(questions[..i])
      invariant awaiting == AnyManual(questions[..i])
    {
      var q := questions[i];
      var verdict := GradeAnswer(rt, q, ResponseTo(responses, q.id));
      OneMoreQuestion(all, questions, i);
      OnlyPeopleMarkManualQuestions(rt, q, ResponseTo(responses, q.id));
      maxPoints := maxPoints + q.points;
      points := points + verdict.points;
      if verdict.manual {
        awaiting := true;
      }
      answers := answers + [AnswerGrade(q.id, verdict)];
    }
    assert all[..|questions|] == all && questions[..|questions|] == questions;
    return Outcome(answers, points, maxPoints, awaiting);
  }

  predicate Passed(points: int, maxPoints: int, passingPercent: int) {
    maxPoints <= 0 || points * 100 >= passingPercent * maxPoints
  }

  /** Attempt.Percent: Go truncates, and both operands are non-negative where it matters. */
  function Percent(points: int, maxPoints: int): int
    requires points >= 0
  {
    if maxPoints <= 0 then 0 else points * 100 / maxPoints
  }

  lemma SomethingIsSomething(ids: seq<Id>)
    ensures Elements(ids) == {} <==> ids == []
  {
    if ids != [] {
      assert ids[0] in Elements(ids);
    }
  }

  // ---- Laws of a verdict ----

  /** No verdict awards more than the question is worth, or anything for a question a person marks. */
  lemma VerdictIsBounded(rt: Runtime, q: Question, r: Response)
    requires q.points >= 0
    ensures var v := Grade(rt, q, r);
            && 0 <= v.points <= q.points
            && (v.manual <==> IsManual(q.kind))
            && (v.points > 0 ==> v.correct)
            && (v.correct ==> v.points == q.points && !v.manual)
  {
  }

  /** Saying nothing earns nothing, on any question whether or not an author could have saved it. */
  lemma EmptyResponseEarnsNothing(rt: Runtime, q: Question)
    ensures Grade(rt, q, EMPTY_RESPONSE).points == 0 && !Grade(rt, q, EMPTY_RESPONSE).correct
  {
    NormaliseBlank("", q.caseSensitive, rt.lower);
    assert q.accepted != [] ==> !BlankRight(rt, [""][0], q.accepted[0], q.caseSensitive);
    SomethingIsSomething(CorrectIds(q.options));
    assert Elements<Id>([]) == {};
  }

  /** The integer bar and the rounded-down percentage agree whenever there is something to score. */
  lemma PassedIffPercentReachesBar(points: int, maxPoints: int, passingPercent: int)
    requires points >= 0 && maxPoints > 0
    ensures Passed(points, maxPoints, passingPercent) <==> Percent(points, maxPoints) >= passingPercent
  {
    var p := points * 100 / maxPoints;
    assert p * maxPoints <= points * 100 < (p + 1) * maxPoints;
    if p >= passingPercent {
      assert p * maxPoints >= passingPercent * maxPoints;
    } else {
      assert (p + 1) * maxPoints <= passingPercent * maxPoints;
    }
  }

  /** With distinct items and real match ids, the only right matching is the authored one, key for key. */
  lemma MatchingHasOneAnswer(q: Question, pairs: map<Id, Id>)
    requires q.options != []
    requires Distinct(Ids(q.options))
    requires forall o :: o in q.options ==> o.matchId != NIL
    ensures MatchingRight(q, pairs) <==> pairs == AuthoredPairs(q.options)
  {
    ElementsSize(Ids(q.options));
    AuthoredPairsAt(q.options);
    if MatchingRight(q, pairs) {
      forall id | id in Elements(Ids(q.options)) ensures id in pairs {
        var i :| 0 <= i < |q.options| && Ids(q.options)[i] == id;
        assert Lookup(pairs, q.options[i].id) == q.options[i].matchId && q.options[i] in q.options;
      }
      SubsetIsNoLarger(Elements(Ids(q.options)), pairs.Keys);
      assert |pairs.Keys| == |pairs|;
      forall id | id in pairs ensures pairs[id] == AuthoredPairs(q.options)[id] {
        var i :| 0 <= i < |q.options| && Ids(q.options)[i] == id;
        assert Lookup(pairs, q.options[i].id) == q.options[i].matchId;
      }
    }
    assert |AuthoredPairs(q.options)| == |AuthoredPairs(q.options).Keys|;
  }

  function AuthoredPairs(options: seq<Choice>): map<Id, Id> {
    if options == [] then map[]
    else AuthoredPairs(options[..|options| - 1])[options[|options| - 1].id := options[|options| - 1].matchId]
  }

  lemma {:induction false} AuthoredPairsAt(options: seq<Choice>)
    requires Distinct(Ids(options))
    ensures AuthoredPairs(options).Keys == Elements(Ids(options))
    ensures forall i :: 0 <= i < |options| ==> AuthoredPairs(options)[Ids(options)[i]] == options[i].matchId
  {
    if options != [] {
      var init, last := options[..|options| - 1], options[|options| - 1];
      assert Ids(init) == Ids(options)[..|options| - 1];
      AuthoredPairsAt(init);
      assert Ids(options) == Ids(init) + [last.id];
    }
  }
}
