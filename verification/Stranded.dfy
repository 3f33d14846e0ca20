/** The two ways an attempt stops for good: its last markable answer is removed, or its grading job is given up. */
module Stranded {
  import opened Prelude
  import opened Quiz
  import opened Grading
  import opened Attempts
  import opened AttemptRuns
  import opened AttemptSafety

  // ---- Waiting for a marker who has nothing to mark ----

  ghost predicate NothingToMark(questions: seq<Question>, rows: Rows) {
    && rows.Keys <= QuestionIds(questions)
    && forall q :: q in questions && IsManual(q.kind) ==> q.id !in rows
  }

  /** The attempt waits for a person, and no question that a person marks has a row in it. */
  ghost predicate Unmarkable(s: State, a: Id) {
    a in s.attempts && s.attempts[a].status == AwaitingReview && NothingToMark(s.questions, RowsOf(s.answers, a))
  }

  lemma AManualRowCanBeMarked(s: State, a: Id, q: Question)
    requires QuestionsOk(s.questions) && a in s.attempts && s.attempts[a].status == AwaitingReview
    requires q in s.questions && IsManual(q.kind) && q.id in RowsOf(s.answers, a)
    ensures MarkAnswer(s, a, q.id, 0).Ok?
  {
    FindsItself(s.questions, q);
  }

  /** A marker finds something to mark exactly while the attempt is not stuck. */
  lemma UnmarkableIff(s: State, a: Id)
    requires QuestionsOk(s.questions) && AttemptsOk(s.questions, s.attempts, s.answers)
    requires a in s.attempts && s.attempts[a].status == AwaitingReview
    ensures Unmarkable(s, a) <==> forall question, points :: MarkAnswer(s, a, question, points).Err?
  {
    assert AttemptOk(s.questions, s.attempts[a], RowsOf(s.answers, a));
    forall q | q in s.questions && IsManual(q.kind) && q.id in RowsOf(s.answers, a)
      ensures MarkAnswer(s, a, q.id, 0).Ok?
    {
      AManualRowCanBeMarked(s, a, q);
    }
  }

  lemma RemovalLeavesNothingIff(questions: seq<Question>, rows: Rows, id: Id)
    requires rows.Keys <= QuestionIds(questions)
    ensures NothingToMark(Without(questions, id), rows - {id}) <==>
            forall q :: q in questions && IsManual(q.kind) && q.id in rows ==> q.id == id
  {
    WithoutKeepsTheRest(questions, id);
    RemovalKeepsIds(questions, id, rows.Keys);
    assert (rows - {id}).Keys == rows.Keys - {id};
  }

  /** Removing a question strands an attempt exactly when no other question a person marks has a row in it. */
  lemma RemovalStrandsIff(s: State, a: Id, id: Id)
    requires Inv(s) && a in s.attempts && s.attempts[a].status == AwaitingReview
    requires Find(s.questions, id).Some?
    ensures Unmarkable(RemoveQuestion(s, id).value, a) <==>
            forall q :: q in s.questions && IsManual(q.kind) && q.id in RowsOf(s.answers, a) ==> q.id == id
  {
    var rows := RowsOf(s.answers, a);
    assert AttemptOk(s.questions, s.attempts[a], rows);
    assert RowsOf(RemoveQuestion(s, id).value.answers, a) == rows - {id};
    RemovalLeavesNothingIff(s.questions, rows, id);
  }

  lemma AddKeepsUnmarkable(s: State, a: Id, q: Question)
    requires Unmarkable(s, a) && q.id !in QuestionIds(s.questions)
    ensures Unmarkable(AddQuestion(s, q), a)
  {
    QuestionIdsSnoc(s.questions, q);
  }

  lemma RemoveKeepsUnmarkable(s: State, a: Id, id: Id)
    requires Unmarkable(s, a)
    ensures Unmarkable(Kept(s, RemoveQuestion(s, id)), a)
  {
    if Find(s.questions, id).Some? {
      var rows := RowsOf(s.answers, a);
      assert RowsOf(RemoveQuestion(s, id).value.answers, a) == rows - {id};
      RemovalLeavesNothingIff(s.questions, rows, id);
    }
  }

  lemma SaveKeepsUnmarkable(s: State, a: Id, user: Id, question: Id, response: Response, now: int)
    requires Unmarkable(s, a)
    ensures Unmarkable(Kept(s, SaveAnswer(s, user, question, response, now)), a)
  {
    if HasLive(s.attempts, user) {
      assert IsLive(s.attempts, user, LiveAttempt(s.attempts, user));
    }
  }

  lemma MarkKeepsUnmarkable(s: State, a: Id, id: Id, question: Id, points: int)
    requires Unmarkable(s, a)
    ensures Unmarkable(Kept(s, MarkAnswer(s, id, question, points)), a)
    ensures Kept(s, MarkAnswer(s, id, question, points)).attempts[a] == s.attempts[a]
  {
  }

  lemma StepKeepsUnmarkable(rt: Runtime, s: State, step: Step, a: Id)
    requires Unmarkable(s, a) && Permitted(s, step)
    ensures Unmarkable(Next(rt, s, step), a) && Next(rt, s, step).attempts[a] == s.attempts[a]
  {
    match step
    case Add(q) => AddKeepsUnmarkable(s, a, q);
    case Remove(id) => RemoveKeepsUnmarkable(s, a, id);
    case Save(user, k, response, now) => SaveKeepsUnmarkable(s, a, user, k, response, now);
    case Submit(user) =>
      if HasLive(s.attempts, user) {
        assert IsLive(s.attempts, user, LiveAttempt(s.attempts, user));
      }
    case Mark(id, k, points) => MarkKeepsUnmarkable(s, a, id, k, points);
    case _ =>
  }

  /** No run, whatever is added, removed, delivered again or marked, ever moves it. */
  lemma {:induction false} UnmarkableForGood(rt: Runtime, s: State, steps: seq<Step>, a: Id)
    requires Unmarkable(s, a) && AllPermitted(rt, s, steps)
    ensures Unmarkable(After(rt, s, steps), a) && After(rt, s, steps).attempts[a] == s.attempts[a]
    decreases |steps|
  {
    if steps != [] {
      StepKeepsUnmarkable(rt, s, steps[0], a);
      UnmarkableForGood(rt, Next(rt, s, steps[0]), steps[1..], a);
    }
  }

  // ---- In grading, with the job given up ----

  ghost predicate GivenUp(s: State, a: Id) {
    && a in s.attempts && s.attempts[a].status == InGrading
    && a in s.jobs && s.jobs[a].phase == Discarded
  }

  lemma WorkingTheJobGrades(rt: Runtime, s: State, a: Id)
    requires a in s.attempts && s.attempts[a].status == InGrading
    ensures a in WorkJob(rt, s, a).attempts && Rank(WorkJob(rt, s, a).attempts[a].status) >= 2
  {
  }

  /** One delivery is all that an attempt in grading needs, and it can have one unless its job was given up. */
  lemma GradingCanFinishIff(rt: Runtime, s: State, a: Id)
    requires JobsOk(s.attempts, s.jobs) && a in s.attempts && s.attempts[a].status == InGrading
    ensures !GivenUp(s, a) <==>
            && Permitted(s, Deliver(a))
            && a in WorkJob(rt, s, a).attempts && Rank(WorkJob(rt, s, a).attempts[a].status) >= 2
  {
    assert JobOk(s.attempts[a].status, s.jobs, a);
    WorkingTheJobGrades(rt, s, a);
  }

  lemma StepKeepsGivenUp(rt: Runtime, s: State, step: Step, a: Id)
    requires GivenUp(s, a) && Permitted(s, step)
    ensures GivenUp(Next(rt, s, step), a) && Next(rt, s, step).attempts[a] == s.attempts[a]
  {
    if step.Submit? && HasLive(s.attempts, step.user) {
      assert IsLive(s.attempts, step.user, LiveAttempt(s.attempts, step.user));
    }
  }

  /** An attempt whose job was given up before any delivery of it committed stays in grading over every run. */
  lemma {:induction false} GivenUpForGood(rt: Runtime, s: State, steps: seq<Step>, a: Id)
    requires GivenUp(s, a) && AllPermitted(rt, s, steps)
    ensures GivenUp(After(rt, s, steps), a) && After(rt, s, steps).attempts[a] == s.attempts[a]
    decreases |steps|
  {
    if steps != [] {
      StepKeepsGivenUp(rt, s, steps[0], a);
      GivenUpForGood(rt, Next(rt, s, steps[0]), steps[1..], a);
    }
  }
}
