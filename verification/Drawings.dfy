/** Whose drawing an answer can name, in any state a run of the quiz reaches. */
module Drawings {
  import opened Prelude
  import opened Quiz
  import opened Grading
  import opened Uploads
  import opened Attempts
  import opened AttemptSafety
  import opened AttemptAnswers

  /** Every key in these rows lies under the learner's own prefix for that answer of that attempt. */
  ghost predicate OwnRows(rows: Rows, a: Id, user: Id) {
    forall k :: k in rows ==> IsOwnUpload(rows[k].response.upload, a, k, user)
  }

  ghost predicate OwnUploads(attempts: map<Id, Attempt>, answers: map<Id, Rows>) {
    && answers.Keys <= attempts.Keys
    && forall a :: a in attempts ==> OwnRows(RowsOf(answers, a), a, attempts[a].user)
  }

  lemma {:induction false} WritingAddsNoUpload(rows: Rows, grades: seq<AnswerGrade>, k: Id)
    requires k in Written(rows, grades) && k !in rows
    ensures Written(rows, grades)[k].response == EMPTY_RESPONSE
  {
    var init := grades[..|grades| - 1];
    if k in Written(rows, init) {
      WritingAddsNoUpload(rows, init, k);
    }
  }

  lemma WritingKeepsOwnRows(rows: Rows, grades: seq<AnswerGrade>, a: Id, user: Id)
    requires OwnRows(rows, a, user)
    ensures OwnRows(Written(rows, grades), a, user)
  {
    forall k | k in Written(rows, grades)
      ensures IsOwnUpload(Written(rows, grades)[k].response.upload, a, k, user)
    {
      if k in rows {
        WritingKeepsResponses(rows, grades, k);
      } else {
        WritingAddsNoUpload(rows, grades, k);
      }
    }
  }

  /** One attempt's rows are rewritten, and no attempt changes hands. */
  lemma RewritingKeepsUploads(attempts: map<Id, Attempt>, answers: map<Id, Rows>, id: Id, attempts': map<Id, Attempt>,
                              answers': map<Id, Rows>)
    requires OwnUploads(attempts, answers) && id in attempts
    requires attempts'.Keys == attempts.Keys && answers'.Keys <= attempts.Keys
    requires forall a :: a in attempts ==> attempts'[a].user == attempts[a].user
    requires forall a :: a != id ==> RowsOf(answers', a) == RowsOf(answers, a)
    requires OwnRows(RowsOf(answers', id), id, attempts[id].user)
    ensures OwnUploads(attempts', answers')
  {
    forall a | a in attempts' ensures OwnRows(RowsOf(answers', a), a, attempts'[a].user) {
      assert OwnRows(RowsOf(answers, a), a, attempts[a].user);
    }
  }

  lemma StartingKeepsUploads(s: State, user: Id, now: int, newId: Id)
    requires OwnUploads(s.attempts, s.answers) && newId !in s.attempts
    ensures OwnUploads(Kept(s, StartAttempt(s, user, now, newId)).attempts, s.answers)
  {
    var t := Kept(s, StartAttempt(s, user, now, newId));
    forall a | a in t.attempts ensures OwnRows(RowsOf(s.answers, a), a, t.attempts[a].user) {
      if a in s.attempts {
        assert OwnRows(RowsOf(s.answers, a), a, s.attempts[a].user);
      }
    }
  }

  lemma RemovingKeepsUploads(s: State, id: Id)
    requires OwnUploads(s.attempts, s.answers)
    ensures var t := Kept(s, RemoveQuestion(s, id)); OwnUploads(t.attempts, t.answers)
  {
    var t := Kept(s, RemoveQuestion(s, id));
    forall a | a in t.attempts ensures OwnRows(RowsOf(t.answers, a), a, t.attempts[a].user) {
      assert OwnRows(RowsOf(s.answers, a), a, s.attempts[a].user);
    }
  }

  lemma SavingKeepsUploads(s: State, user: Id, question: Id, response: Response, now: int)
    requires OwnUploads(s.attempts, s.answers)
    ensures var t := Kept(s, SaveAnswer(s, user, question, response, now)); OwnUploads(t.attempts, t.answers)
  {
    if SaveAnswer(s, user, question, response, now).Ok? {
      var t := SaveAnswer(s, user, question, response, now).value;
      var a := LiveAttempt(s.attempts, user);
      assert OwnRows(RowsOf(s.answers, a), a, s.attempts[a].user);
      assert RowsOf(t.answers, a)[question].response == response;
      RewritingKeepsUploads(s.attempts, s.answers, a, t.attempts, t.answers);
    }
  }

  lemma SubmittingKeepsUploads(s: State, user: Id)
    requires OwnUploads(s.attempts, s.answers)
    ensures OwnUploads(Kept(s, SubmitAttempt(s, user)).attempts, s.answers)
  {
    if HasLive(s.attempts, user) {
      var a := LiveAttempt(s.attempts, user);
      assert OwnRows(RowsOf(s.answers, a), a, s.attempts[a].user);
      RewritingKeepsUploads(s.attempts, s.answers, a, SubmitAttempt(s, user).value.attempts, s.answers);
    }
  }

  lemma DeliveringKeepsUploads(rt: Runtime, s: State, id: Id)
    requires OwnUploads(s.attempts, s.answers)
    ensures OwnUploads(WorkJob(rt, s, id).attempts, WorkJob(rt, s, id).answers)
  {
    if id in s.attempts && s.attempts[id].status == InGrading {
      var t := GradedNow(rt, s, id);
      var rows := RowsOf(s.answers, id);
      assert OwnRows(rows, id, s.attempts[id].user);
      WritingKeepsOwnRows(rows, Grades(rt, s.questions, Responses(rows)), id, s.attempts[id].user);
      RewritingKeepsUploads(s.attempts, s.answers, id, t.attempts, t.answers);
    }
  }

  lemma MarkingKeepsUploads(s: State, id: Id, question: Id, points: int)
    requires OwnUploads(s.attempts, s.answers)
    ensures var t := Kept(s, MarkAnswer(s, id, question, points)); OwnUploads(t.attempts, t.answers)
  {
    if MarkAnswer(s, id, question, points).Ok? {
      var t := MarkAnswer(s, id, question, points).value;
      assert OwnRows(RowsOf(s.answers, id), id, s.attempts[id].user);
      RewritingKeepsUploads(s.attempts, s.answers, id, t.attempts, t.answers);
    }
  }

  lemma StepKeepsUploads(rt: Runtime, s: State, step: Step)
    requires OwnUploads(s.attempts, s.answers) && Permitted(s, step)
    ensures OwnUploads(Next(rt, s, step).attempts, Next(rt, s, step).answers)
  {
    match step
    case Start(user, now, newId) => StartingKeepsUploads(s, user, now, newId);
    case Remove(id) => RemovingKeepsUploads(s, id);
    case Save(user, question, response, now) => SavingKeepsUploads(s, user, question, response, now);
    case Submit(user) => SubmittingKeepsUploads(s, user);
    case Deliver(id) => DeliveringKeepsUploads(rt, s, id);
    case Mark(id, question, points) => MarkingKeepsUploads(s, id, question, points);
    case _ =>
  }

  lemma {:induction false} RunKeepsUploads(rt: Runtime, s: State, steps: seq<Step>)
    requires OwnUploads(s.attempts, s.answers) && AllPermitted(rt, s, steps)
    ensures OwnUploads(After(rt, s, steps).attempts, After(rt, s, steps).answers)
    decreases |steps|
  {
    if steps != [] {
      StepKeepsUploads(rt, s, steps[0]);
      RunKeepsUploads(rt, Next(rt, s, steps[0]), steps[1..]);
    }
  }

  /** In no state any run reaches do two answers, of one learner or of two, name the same drawing. */
  lemma NoDrawingServesTwoAnswers(rt: Runtime, settings: Settings, steps: seq<Step>, a: Id, k: Id, b: Id, j: Id)
    requires AllPermitted(rt, Opened(settings), steps)
    requires var s := After(rt, Opened(settings), steps);
             && a in s.attempts && k in RowsOf(s.answers, a) && b in s.attempts && j in RowsOf(s.answers, b)
             && RowsOf(s.answers, a)[k].response.upload != ""
             && RowsOf(s.answers, a)[k].response.upload == RowsOf(s.answers, b)[j].response.upload
    ensures (a, k) == (b, j)
  {
    RunKeepsUploads(rt, Opened(settings), steps);
    var s := After(rt, Opened(settings), steps);
    assert OwnRows(RowsOf(s.answers, a), a, s.attempts[a].user);
    assert OwnRows(RowsOf(s.answers, b), b, s.attempts[b].user);
    NoKeyIsSharedByTwo(RowsOf(s.answers, a)[k].response.upload, a, k, s.attempts[a].user, b, j, s.attempts[b].user);
  }
}
