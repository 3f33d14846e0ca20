/** A marker's points are the points stored, and what they come to once an attempt is graded. */
module Marks {
  import opened Prelude
  import opened Quiz
  import opened Grading
  import opened Sums
  import opened Attempts
  import opened AttemptRuns
  import opened AttemptSafety
  import opened AttemptAnswers

  // ---- One mark ----

  ghost predicate MarkedAs(before: Answer, after: Answer, points: int, worth: int) {
    && after.points == points && after.graded && after.response == before.response
    && (after.correct <==> points == worth)
  }

  /** Every answer but this one is what it was, in every attempt. */
  ghost predicate OnlyThisAnswer(before: map<Id, Rows>, after: map<Id, Rows>, id: Id, question: Id) {
    forall a: Id, k: Id :: (a, k) != (id, question) ==>
      && (k in RowsOf(after, a) <==> k in RowsOf(before, a))
      && (k in RowsOf(before, a) ==> RowsOf(after, a)[k] == RowsOf(before, a)[k])
  }

  /** An accepted mark stores exactly the points it was given on exactly the answer it was given for. */
  lemma AMarkIsStored(s: State, id: Id, q: Question, points: int)
    requires DistinctQuestions(s.questions) && q in s.questions
    requires MarkAnswer(s, id, q.id, points).Ok?
    ensures var t := MarkAnswer(s, id, q.id, points).value;
            && q.id in RowsOf(s.answers, id) && q.id in RowsOf(t.answers, id)
            && MarkedAs(RowsOf(s.answers, id)[q.id], RowsOf(t.answers, id)[q.id], points, q.points)
            && OnlyThisAnswer(s.answers, t.answers, id, q.id)
            && t.questions == s.questions && t.settings == s.settings && t.jobs == s.jobs
            && t.attempts.Keys == s.attempts.Keys && id in s.attempts
            && (forall a :: a in s.attempts && a != id ==> t.attempts[a] == s.attempts[a])
            && t.attempts[id].points == SumMap(PointsIn(RowsOf(t.answers, id)))
            && t.attempts[id].status == (if Unmarked(RowsOf(t.answers, id)) then AwaitingReview else Graded)
  {
    FindsItself(s.questions, q);
  }

  /**
   A mark is accepted exactly for an answer, given or not, to a question a person marks, in an attempt that waits
   for one, and for no more points than the question has.
   */
  lemma AMarkIsAcceptedIff(s: State, id: Id, question: Id, points: int)
    requires DistinctQuestions(s.questions)
    ensures MarkAnswer(s, id, question, points).Ok? <==>
            && id in s.attempts && s.attempts[id].status == AwaitingReview
            && question in RowsOf(s.answers, id)
            && exists q :: q in s.questions && q.id == question && IsManual(q.kind) && 0 <= points <= q.points
  {
    if q :| q in s.questions && q.id == question {
      FindsItself(s.questions, q);
    }
  }

  /** Why a mark is refused: each reason exactly where none before it holds. */
  lemma AMarkIsRefusedFor(s: State, id: Id, question: Id, points: int)
    requires DistinctQuestions(s.questions)
    ensures var r := MarkAnswer(s, id, question, points);
            var waits := id in s.attempts && s.attempts[id].status == AwaitingReview;
            && (r == Err(NotAwaitingReview) <==> id in s.attempts && s.attempts[id].status != AwaitingReview)
            && (r == Err(NotManual) <==> waits && exists q :: q in s.questions && q.id == question && !IsManual(q.kind))
            && (r == Err(InvalidGrade) <==>
                  waits && exists q :: q in s.questions && q.id == question && IsManual(q.kind)
                                       && !(0 <= points <= q.points))
            && (r.Err? ==> r.error in {NotFound, NotAwaitingReview, NotManual, InvalidGrade})
  {
    if q :| q in s.questions && q.id == question {
      FindsItself(s.questions, q);
    }
  }

  // ---- Marks over a run ----

  /** This step marks that answer, and is accepted. */
  ghost predicate Marking(s: State, step: Step, id: Id, question: Id) {
    step.Mark? && step.id == id && step.questionId == question && MarkAnswer(s, id, question, step.points).Ok?
  }

  /** The points of the last accepted mark of an answer in a run, if it was marked at all. */
  ghost function LastMark(rt: Runtime, s: State, steps: seq<Step>, id: Id, question: Id): Option<int>
    decreases |steps|
  {
    if steps == [] then None
    else
      var later := LastMark(rt, Next(rt, s, steps[0]), steps[1..], id, question);
      if later.Some? then later
      else if Marking(s, steps[0], id, question) then Some(steps[0].points)
      else None
  }

  function RemovedIn(steps: seq<Step>): set<Id> {
    if steps == [] then {} else RemovedIn(steps[1..]) + if steps[0].Remove? then {steps[0].id} else {}
  }

  ghost predicate IsClosed(s: State, id: Id) {
    id in s.attempts && Rank(s.attempts[id].status) >= 2
  }

  /** The points of a closed attempt's answer move only to those of an accepted mark of it. */
  lemma StepMovesPoints(rt: Runtime, s: State, step: Step, id: Id, question: Id)
    requires IsClosed(s, id) && question in RowsOf(s.answers, id) && Permitted(s, step)
    requires !(step.Remove? && step.id == question)
    ensures IsClosed(Next(rt, s, step), id) && question in RowsOf(Next(rt, s, step).answers, id)
    ensures var a, b := RowsOf(s.answers, id)[question], RowsOf(Next(rt, s, step).answers, id)[question];
            && b.response == a.response
            && (if Marking(s, step, id, question) then b.points == step.points && b.graded else b == a)
  {
    StepMovesForward(rt, s, step);
    if !Marking(s, step, id, question) && !(step.Mark? && step.id == id && step.questionId == question) {
      StepKeepsRow(rt, s, step, id, question, RowsOf(s.answers, id)[question]);
    }
  }

  /** Over any run a closed attempt's answer carries the points of its last mark, and unmarked what it had. */
  lemma {:induction false} TheLastMarkStands(rt: Runtime, s: State, steps: seq<Step>, id: Id, question: Id)
    requires IsClosed(s, id) && question in RowsOf(s.answers, id)
    requires AllPermitted(rt, s, steps) && question !in RemovedIn(steps)
    ensures question in RowsOf(After(rt, s, steps).answers, id)
    ensures var a, b := RowsOf(s.answers, id)[question], RowsOf(After(rt, s, steps).answers, id)[question];
            var mark := LastMark(rt, s, steps, id, question);
            && b.response == a.response
            && (if mark.Some? then b.points == mark.value && b.graded else b == a)
    decreases |steps|
  {
    if steps != [] {
      StepMovesPoints(rt, s, steps[0], id, question);
      TheLastMarkStands(rt, Next(rt, s, steps[0]), steps[1..], id, question);
    }
  }

  // ---- What an attempt comes to ----

  lemma JobVerdict(rt: Runtime, questions: seq<Question>, rows: Rows, q: Question)
    requires DistinctQuestions(questions) && q in questions
    ensures var after := Written(rows, Grades(rt, questions, Responses(rows)));
            && q.id in after
            && CarriesVerdict(after[q.id], Grade(rt, q, ResponseTo(Responses(rows), q.id)))
  {
    var grades := Grades(rt, questions, Responses(rows));
    GradedIdsAreQuestionIds(rt, questions, Responses(rows));
    var i :| 0 <= i < |questions| && questions[i] == q;
    assert grades[i] == AnswerGrade(q.id, Grade(rt, q, ResponseTo(Responses(rows), q.id)));
    WrittenRow(rows, grades, i);
  }

  /** The rows of a closed attempt are rows of questions still there. */
  ghost predicate RowsStand(s: State, id: Id) {
    IsClosed(s, id) && RowsOf(s.answers, id).Keys <= QuestionIds(s.questions)
  }

  lemma RemoveTakesItsKey(s: State, id: Id, question: Id)
    requires RowsStand(s, id)
    ensures var t := Kept(s, RemoveQuestion(s, question));
            RowsStand(t, id) && RowsOf(t.answers, id).Keys == RowsOf(s.answers, id).Keys - {question}
  {
    var rows := RowsOf(s.answers, id);
    if Find(s.questions, question).Some? {
      assert RowsOf(RemoveQuestion(s, question).value.answers, id) == rows - {question};
      assert (rows - {question}).Keys == rows.Keys - {question};
      RemovalKeepsIds(s.questions, question, rows.Keys);
    } else {
      assert question !in QuestionIds(s.questions);
    }
  }

  lemma AddKeepsRowsStanding(s: State, id: Id, q: Question)
    requires RowsStand(s, id)
    ensures RowsStand(AddQuestion(s, q), id)
  {
    QuestionIdsSnoc(s.questions, q);
  }

  lemma SaveKeepsKeys(s: State, id: Id, user: Id, question: Id, response: Response, now: int)
    requires RowsStand(s, id)
    ensures var t := Kept(s, SaveAnswer(s, user, question, response, now));
            RowsStand(t, id) && RowsOf(t.answers, id) == RowsOf(s.answers, id)
  {
    if HasLive(s.attempts, user) {
      assert IsLive(s.attempts, user, LiveAttempt(s.attempts, user));
    }
  }

  lemma SubmitKeepsKeys(s: State, id: Id, user: Id)
    requires RowsStand(s, id)
    ensures RowsStand(Kept(s, SubmitAttempt(s, user)), id)
  {
    if HasLive(s.attempts, user) {
      assert IsLive(s.attempts, user, LiveAttempt(s.attempts, user));
    }
  }

  lemma MarkKeepsKeys(s: State, id: Id, a: Id, question: Id, points: int)
    requires RowsStand(s, id)
    ensures var t := Kept(s, MarkAnswer(s, a, question, points));
            RowsStand(t, id) && RowsOf(t.answers, id).Keys == RowsOf(s.answers, id).Keys
  {
    if MarkAnswer(s, a, question, points).Ok? && a == id {
      var rows, after := RowsOf(s.answers, id), RowsOf(MarkAnswer(s, a, question, points).value.answers, id);
      assert after == rows[question := after[question]];
    }
  }

  lemma StepKeepsKeys(rt: Runtime, s: State, step: Step, id: Id)
    requires RowsStand(s, id) && Permitted(s, step)
    ensures RowsStand(Next(rt, s, step), id)
    ensures RowsOf(Next(rt, s, step).answers, id).Keys ==
            RowsOf(s.answers, id).Keys - if step.Remove? then {step.id} else {}
  {
    match step
    case Add(q) => AddKeepsRowsStanding(s, id, q);
    case Remove(question) => RemoveTakesItsKey(s, id, question);
    case Save(user, question, response, now) => SaveKeepsKeys(s, id, user, question, response, now);
    case Submit(user) => SubmitKeepsKeys(s, id, user);
    case Mark(a, question, points) => MarkKeepsKeys(s, id, a, question, points);
    case _ =>
  }

  lemma {:induction false} RunKeepsKeys(rt: Runtime, s: State, steps: seq<Step>, id: Id)
    requires RowsStand(s, id) && AllPermitted(rt, s, steps)
    ensures RowsStand(After(rt, s, steps), id)
    ensures RowsOf(After(rt, s, steps).answers, id).Keys == RowsOf(s.answers, id).Keys - RemovedIn(steps)
    decreases |steps|
  {
    if steps != [] {
      StepKeepsKeys(rt, s, steps[0], id);
      RunKeepsKeys(rt, Next(rt, s, steps[0]), steps[1..], id);
    }
  }

  lemma ClosedPoints(questions: seq<Question>, attempts: map<Id, Attempt>, answers: map<Id, Rows>, id: Id)
    requires AttemptsOk(questions, attempts, answers) && id in attempts && Rank(attempts[id].status) >= 2
    ensures attempts[id].points == SumMap(PointsIn(RowsOf(answers, id)))
  {
    assert AttemptOk(questions, attempts[id], RowsOf(answers, id));
  }

  /** After any straight run a closed attempt is worth the sum of its rows. */
  lemma RunKeepsSum(rt: Runtime, s: State, steps: seq<Step>, id: Id)
    requires Inv(s) && AllStraight(rt, s, steps) && IsClosed(After(rt, s, steps), id)
    ensures After(rt, s, steps).attempts[id].points == SumMap(PointsIn(RowsOf(After(rt, s, steps).answers, id)))
  {
    RunKeepsInv(rt, s, steps);
    var u := After(rt, s, steps);
    ClosedPoints(u.questions, u.attempts, u.answers, id);
  }

  /** What the attempt has earned for one question: its last mark, and unmarked the machine's verdict. */
  ghost function Earned(rt: Runtime, s: State, steps: seq<Step>, id: Id, k: Id): int {
    var mark, found := LastMark(rt, WorkJob(rt, s, id), steps, id, k), Find(s.questions, k);
    if mark.Some? then mark.value
    else if found.Some? then Grade(rt, found.value, ResponseTo(Responses(RowsOf(s.answers, id)), k)).points
    else 0
  }

  ghost function EarnedIn(rt: Runtime, s: State, steps: seq<Step>, id: Id, ids: set<Id>): map<Id, int> {
    map k | k in ids :: Earned(rt, s, steps, id, k)
  }

  lemma DeliveredRows(rt: Runtime, s: State, id: Id)
    requires QuestionsOk(s.questions) && AttemptsOk(s.questions, s.attempts, s.answers)
    requires id in s.attempts && s.attempts[id].status == InGrading
    ensures var t, rows := WorkJob(rt, s, id), RowsOf(s.answers, id);
            && RowsStand(t, id) && RowsOf(t.answers, id).Keys == QuestionIds(s.questions)
            && RowsOf(t.answers, id) == Written(rows, Grades(rt, s.questions, Responses(rows)))
  {
    assert AttemptOk(s.questions, s.attempts[id], RowsOf(s.answers, id));
    JobKeys(rt, s.questions, RowsOf(s.answers, id));
  }

  lemma EachAnswerEarnsItsDue(rt: Runtime, s: State, steps: seq<Step>, id: Id, k: Id)
    requires QuestionsOk(s.questions) && AttemptsOk(s.questions, s.attempts, s.answers)
    requires id in s.attempts && s.attempts[id].status == InGrading
    requires AllPermitted(rt, WorkJob(rt, s, id), steps)
    requires k in QuestionIds(s.questions) - RemovedIn(steps)
    ensures var u := After(rt, WorkJob(rt, s, id), steps);
            k in RowsOf(u.answers, id) && RowsOf(u.answers, id)[k].points == Earned(rt, s, steps, id, k)
  {
    DeliveredRows(rt, s, id);
    var q :| q in s.questions && q.id == k;
    FindsItself(s.questions, q);
    JobVerdict(rt, s.questions, RowsOf(s.answers, id), q);
    TheLastMarkStands(rt, WorkJob(rt, s, id), steps, id, k);
  }

  lemma PointsOfEach(rows: Rows, points: map<Id, int>)
    requires rows.Keys == points.Keys && forall k :: k in rows ==> rows[k].points == points[k]
    ensures PointsIn(rows) == points
  {
  }

  lemma RowsEarnTheirDue(rt: Runtime, s: State, steps: seq<Step>, id: Id)
    requires QuestionsOk(s.questions) && AttemptsOk(s.questions, s.attempts, s.answers)
    requires id in s.attempts && s.attempts[id].status == InGrading
    requires AllPermitted(rt, WorkJob(rt, s, id), steps)
    ensures var u := After(rt, WorkJob(rt, s, id), steps);
            && IsClosed(u, id)
            && PointsIn(RowsOf(u.answers, id)) ==
               EarnedIn(rt, s, steps, id, QuestionIds(s.questions) - RemovedIn(steps))
  {
    DeliveredRows(rt, s, id);
    RunKeepsKeys(rt, WorkJob(rt, s, id), steps, id);
    var rows := RowsOf(After(rt, WorkJob(rt, s, id), steps).answers, id);
    var due := EarnedIn(rt, s, steps, id, QuestionIds(s.questions) - RemovedIn(steps));
    forall k | k in rows ensures rows[k].points == due[k] {
      EachAnswerEarnsItsDue(rt, s, steps, id, k);
    }
    PointsOfEach(rows, due);
  }

  /**
   From the delivery on, over any run whose removals are harmless, an attempt's points are the machine's verdicts on
   what was answered, and for each question a person marked the points of its last mark instead.
   */
  lemma PointsAreVerdictsAndMarks(rt: Runtime, s: State, steps: seq<Step>, id: Id)
    requires Inv(s) && id in s.attempts && s.attempts[id].status == InGrading && id in s.jobs
    requires AllStraight(rt, WorkJob(rt, s, id), steps)
    ensures var u := After(rt, WorkJob(rt, s, id), steps);
            && IsClosed(u, id)
            && u.attempts[id].points == SumMap(EarnedIn(rt, s, steps, id, QuestionIds(s.questions) - RemovedIn(steps)))
  {
    var t := WorkJob(rt, s, id);
    StraightRunsArePermitted(rt, t, steps);
    RowsEarnTheirDue(rt, s, steps, id);
    DeliverKeepsInv(rt, s, id);
    RunKeepsSum(rt, t, steps, id);
  }

  /** And what it is out of is what the quiz was worth when the machine graded it. */
  lemma TheMaximumIsFrozen(rt: Runtime, s: State, steps: seq<Step>, id: Id)
    requires id in s.attempts && s.attempts[id].status == InGrading
    requires DistinctQuestions(s.questions) && AllPermitted(rt, WorkJob(rt, s, id), steps)
    ensures var u := After(rt, WorkJob(rt, s, id), steps);
            && id in u.attempts
            && u.attempts[id].maxPoints == SumMap(WorthIn(s.questions, QuestionIds(s.questions)))
  {
    RunMovesForward(rt, WorkJob(rt, s, id), steps);
    WorthSums(s.questions);
  }
}
