/** What a learner last saved into an attempt is what is graded, whatever else happens in between. */
module AttemptAnswers {
  import opened Prelude
  import opened Quiz
  import opened Grading
  import opened Uploads
  import opened Attempts
  import opened AttemptRuns
  import opened AttemptSafety

  /**
   A save is taken exactly while an attempt is open, its deadline has not passed, any drawing lies under the
   learner's own prefix, and the question is in the quiz.
   */
  lemma SaveIsAcceptedIff(s: State, user: Id, question: Id, response: Response, now: int)
    requires Inv(s)
    ensures SaveAnswer(s, user, question, response, now).Ok? <==>
            && (exists a :: IsLive(s.attempts, user, a) && TakesSave(s.attempts[a], a, user, question, response, now))
            && question in QuestionIds(s.questions)
  {
    NewestIsOnlyLive(s.attempts);
    var found := Find(s.questions, question);
    if found.Some? {
      assert found.value.id in QuestionIds(s.questions);
    }
    if HasLive(s.attempts, user) {
      assert IsLive(s.attempts, user, LiveAttempt(s.attempts, user));
    }
  }

  predicate TakesSave(a: Attempt, id: Id, user: Id, question: Id, response: Response, now: int) {
    (a.expiresAt.Some? ==> now <= a.expiresAt.value) && IsOwnUpload(response.upload, id, question, user)
  }

  ghost predicate CarriesVerdict(row: Answer, v: Verdict) {
    (row.graded, row.correct, row.points) == (!v.manual, v.correct, v.points)
  }

  /** The attempt holds `r` for `q`, and once the machine has graded it, the verdict on `r` and no other. */
  ghost predicate Holds(rt: Runtime, s: State, a: Id, user: Id, q: Question, r: Response) {
    && a in s.attempts && s.attempts[a].user == user
    && q in s.questions
    && q.id in RowsOf(s.answers, a)
    && RowHolds(rt, s.attempts[a], RowsOf(s.answers, a)[q.id], q, r)
  }

  ghost predicate RowHolds(rt: Runtime, a: Attempt, row: Answer, q: Question, r: Response) {
    && row.response == r
    && (Rank(a.status) >= 2 && !IsManual(q.kind) ==> CarriesVerdict(row, Grade(rt, q, r)))
  }

  /** No accepted save of this answer into this attempt, and no loss of its question. */
  ghost predicate LeavesAlone(s: State, step: Step, a: Id, question: Id) {
    match step
    case Save(user, k, response, now) =>
      SaveAnswer(s, user, k, response, now).Ok? && k == question ==> LiveAttempt(s.attempts, user) != a
    case Remove(id) => id != question
    case _ => true
  }

  ghost predicate AllLeaveAlone(rt: Runtime, s: State, steps: seq<Step>, a: Id, question: Id)
    decreases |steps|
  {
    steps == [] ||
    (LeavesAlone(s, steps[0], a, question) && AllLeaveAlone(rt, Next(rt, s, steps[0]), steps[1..], a, question))
  }

  lemma {:induction false} WritingKeepsResponses(rows: Rows, grades: seq<AnswerGrade>, k: Id)
    requires k in rows
    ensures k in Written(rows, grades) && Written(rows, grades)[k].response == rows[k].response
  {
    if grades != [] {
      WritingKeepsResponses(rows, grades[..|grades| - 1], k);
    }
  }

  lemma JobGradesTheSavedResponse(rt: Runtime, questions: seq<Question>, rows: Rows, q: Question)
    requires DistinctQuestions(questions) && q in questions && q.id in rows
    ensures var after := Written(rows, Grades(rt, questions, Responses(rows)));
            && q.id in after && after[q.id].response == rows[q.id].response
            && CarriesVerdict(after[q.id], Grade(rt, q, rows[q.id].response))
  {
    var grades := Grades(rt, questions, Responses(rows));
    GradedIdsAreQuestionIds(rt, questions, Responses(rows));
    var i :| 0 <= i < |questions| && questions[i] == q;
    assert grades[i] == AnswerGrade(q.id, Grade(rt, q, ResponseTo(Responses(rows), q.id)));
    WrittenRow(rows, grades, i);
    WritingKeepsResponses(rows, grades, q.id);
  }

  lemma RemovingAnotherHolds(rt: Runtime, s: State, a: Id, user: Id, q: Question, r: Response, id: Id)
    requires Holds(rt, s, a, user, q, r) && id != q.id
    ensures Holds(rt, Kept(s, RemoveQuestion(s, id)), a, user, q, r)
  {
    WithoutKeepsTheRest(s.questions, id);
  }

  lemma SavingElsewhereHolds(rt: Runtime, s: State, a: Id, user: Id, q: Question, r: Response,
                             u: Id, k: Id, response: Response, now: int)
    requires Holds(rt, s, a, user, q, r) && LeavesAlone(s, Save(u, k, response, now), a, q.id)
    ensures Holds(rt, Kept(s, SaveAnswer(s, u, k, response, now)), a, user, q, r)
  {
  }

  lemma DeliveringHolds(rt: Runtime, s: State, a: Id, user: Id, q: Question, r: Response, id: Id)
    requires DistinctQuestions(s.questions) && Holds(rt, s, a, user, q, r)
    ensures Holds(rt, WorkJob(rt, s, id), a, user, q, r)
  {
    if id == a && s.attempts[a].status == InGrading {
      JobGradesTheSavedResponse(rt, s.questions, RowsOf(s.answers, a), q);
      assert |Grades(rt, s.questions, Responses(RowsOf(s.answers, a)))| == |s.questions| > 0;
    }
  }

  /** Only an answer a person marks can be marked, and marking keeps what was said. */
  lemma MarkedRowHolds(rt: Runtime, questions: seq<Question>, a: Attempt, row: Answer, marked: Attempt, q: Question,
                       r: Response, points: int)
    requires RowHolds(rt, a, row, q, r) && IsManual(q.kind)
    ensures RowHolds(rt, marked, row.(graded := true, correct := points == q.points, points := points), q, r)
  {
  }

  lemma MarkingHolds(rt: Runtime, s: State, a: Id, user: Id, q: Question, r: Response, id: Id, k: Id, points: int)
    requires DistinctQuestions(s.questions) && Holds(rt, s, a, user, q, r)
    ensures Holds(rt, Kept(s, MarkAnswer(s, id, k, points)), a, user, q, r)
  {
    if MarkAnswer(s, id, k, points).Ok? && id == a {
      var t := MarkAnswer(s, id, k, points).value;
      assert t.attempts[a].user == user && t.questions == s.questions;
      assert RowsOf(t.answers, a).Keys == RowsOf(s.answers, a).Keys;
      if k == q.id {
        FindsItself(s.questions, q);
        MarkedRowHolds(rt, s.questions, s.attempts[a], RowsOf(s.answers, a)[k], t.attempts[a], q, r, points);
      } else {
        assert RowsOf(t.answers, a)[q.id] == RowsOf(s.answers, a)[q.id];
      }
    }
  }

  lemma SubmittingHolds(rt: Runtime, s: State, a: Id, user: Id, q: Question, r: Response, u: Id)
    requires Holds(rt, s, a, user, q, r)
    ensures Holds(rt, Kept(s, SubmitAttempt(s, u)), a, user, q, r)
  {
    if HasLive(s.attempts, u) {
      assert IsLive(s.attempts, u, LiveAttempt(s.attempts, u));
    }
  }

  lemma StepHolds(rt: Runtime, s: State, step: Step, a: Id, user: Id, q: Question, r: Response)
    requires QuestionsOk(s.questions) && Permitted(s, step) && LeavesAlone(s, step, a, q.id)
    requires Holds(rt, s, a, user, q, r)
    ensures Holds(rt, Next(rt, s, step), a, user, q, r)
  {
    match step
    case Remove(id) => RemovingAnotherHolds(rt, s, a, user, q, r, id);
    case Save(u, k, response, now) => SavingElsewhereHolds(rt, s, a, user, q, r, u, k, response, now);
    case Submit(u) => SubmittingHolds(rt, s, a, user, q, r, u);
    case Deliver(id) => DeliveringHolds(rt, s, a, user, q, r, id);
    case Mark(id, k, points) => MarkingHolds(rt, s, a, user, q, r, id, k, points);
    case _ =>
  }

  /** Over any run, retakes and removals of other questions included. */
  lemma {:induction false} RunHolds(rt: Runtime, s: State, steps: seq<Step>, a: Id, user: Id, q: Question, r: Response)
    requires QuestionsOk(s.questions) && Holds(rt, s, a, user, q, r)
    requires AllPermitted(rt, s, steps) && AllLeaveAlone(rt, s, steps, a, q.id)
    ensures Holds(rt, After(rt, s, steps), a, user, q, r)
    decreases |steps|
  {
    if steps != [] {
      StepHolds(rt, s, steps[0], a, user, q, r);
      StepKeepsQuestions(rt, s, steps[0]);
      RunHolds(rt, Next(rt, s, steps[0]), steps[1..], a, user, q, r);
    }
  }

  /**
   After any run in which this answer is not saved into this attempt again and nobody removes its question,
   the attempt still holds what was saved; and once it is closed, a machine-graded answer carries the verdict
   on exactly that response, whatever later attempts, redeliveries and marks of other answers there were.
   */
  lemma LastSavedResponseIsGraded(rt: Runtime, s: State, user: Id, q: Question, r: Response, now: int, steps: seq<Step>)
    requires QuestionsOk(s.questions) && q in s.questions
    requires SaveAnswer(s, user, q.id, r, now).Ok?
    requires var a, t := LiveAttempt(s.attempts, user), SaveAnswer(s, user, q.id, r, now).value;
             AllPermitted(rt, t, steps) && AllLeaveAlone(rt, t, steps, a, q.id)
    ensures var a := LiveAttempt(s.attempts, user);
            var t := After(rt, SaveAnswer(s, user, q.id, r, now).value, steps);
            && a in t.attempts && q.id in RowsOf(t.answers, a)
            && RowHolds(rt, t.attempts[a], RowsOf(t.answers, a)[q.id], q, r)
  {
    var t := SaveAnswer(s, user, q.id, r, now).value;
    var a := LiveAttempt(s.attempts, user);
    assert IsLive(s.attempts, user, a);
    RunHolds(rt, t, steps, a, user, q, r);
  }
}
