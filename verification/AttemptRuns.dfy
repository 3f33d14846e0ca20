/** What every run of starts, saves, submissions, job deliveries and marks keeps true of a quiz's rows. */
module AttemptRuns {
  import opened Prelude
  import opened Quiz
  import opened Grading
  import opened Sums
  import opened Attempts

  // ---- The invariant ----

  ghost predicate DistinctQuestions(questions: seq<Question>) {
    forall i, j :: 0 <= i < j < |questions| ==> questions[i].id != questions[j].id
  }

  ghost function QuestionIds(questions: seq<Question>): set<Id> {
    set q | q in questions :: q.id
  }

  ghost function WorthOf(questions: seq<Question>, id: Id): int {
    var found := Find(questions, id);
    if found.Some? then found.value.points else 0
  }

  ghost function WorthIn(questions: seq<Question>, ids: set<Id>): map<Id, int> {
    map k | k in ids :: WorthOf(questions, k)
  }

  ghost predicate QuestionsOk(questions: seq<Question>) {
    && DistinctQuestions(questions)
    && (forall q :: q in questions ==> q.points >= 0)
  }

  /** A quiz worth something has an item, and an item is worth something; whether as much is another matter. */
  ghost predicate ItemOk(questions: seq<Question>, item: Option<int>) {
    && (Worth(questions) > 0 ==> item.Some?)
    && (item.Some? ==> item.value > 0)
  }

  /** Nothing has judged these rows yet. */
  ghost predicate Ungraded(rows: Rows) {
    forall k :: k in rows ==> !rows[k].graded && rows[k].points == 0
  }

  /** The attempt summarises its rows, out of a total frozen when the machine graded it. */
  ghost predicate Closed(a: Attempt, rows: Rows, questions: seq<Question>) {
    && a.points == SumMap(PointsIn(rows))
    && (forall k :: k in rows ==> 0 <= rows[k].points <= WorthOf(questions, k))
    && SumMap(WorthIn(questions, rows.Keys)) <= a.maxPoints
    && (a.status == AwaitingReview <==> Unmarked(rows))
    && (a.status == Graded <==> a.passed.Some?)
  }

  ghost predicate AttemptOk(questions: seq<Question>, a: Attempt, rows: Rows) {
    && rows.Keys <= QuestionIds(questions)
    && match a.status
       case InProgress | InGrading => Ungraded(rows) && a.passed.None?
       case AwaitingReview | Graded => Closed(a, rows, questions)
  }

  ghost predicate AttemptsOk(questions: seq<Question>, attempts: map<Id, Attempt>, answers: map<Id, Rows>) {
    && answers.Keys <= attempts.Keys
    && forall id :: id in attempts ==> AttemptOk(questions, attempts[id], RowsOf(answers, id))
  }

  /** A closed attempt has a job, it is in grading until a delivery commits, and only then may the job complete. */
  ghost predicate JobOk(status: Status, jobs: map<Id, Job>, id: Id) {
    && (status == InProgress <==> id !in jobs)
    && (id in jobs ==>
          && (status == InGrading <==> !jobs[id].worked)
          && (jobs[id].phase == Completed ==> jobs[id].worked))
  }

  ghost predicate JobsOk(attempts: map<Id, Attempt>, jobs: map<Id, Job>) {
    && jobs.Keys <= attempts.Keys
    && forall id :: id in attempts ==> JobOk(attempts[id].status, jobs, id)
  }

  ghost predicate LiveIsNewest(attempts: map<Id, Attempt>) {
    forall a :: a in attempts && attempts[a].status == InProgress ==>
      attempts[a].number == |AttemptsOf(attempts, attempts[a].user)|
  }

  ghost predicate NumberingOk(attempts: map<Id, Attempt>) {
    Numbered(attempts) && LiveIsNewest(attempts)
  }

  ghost predicate Scored(a: Attempt) {
    a.status == Graded && a.maxPoints > 0
  }

  ghost predicate CompletesLesson(a: Attempt) {
    a.status == Graded && a.passed == Some(true)
  }

  /** One score per graded attempt worth anything, with that attempt's own numbers, and no other. */
  ghost predicate ScoresOk(attempts: map<Id, Attempt>, scores: seq<Score>) {
    && (forall i :: 0 <= i < |scores| ==>
          var id := scores[i].attempt;
          id in attempts && Scored(attempts[id]) &&
          scores[i] == Score(id, attempts[id].user, attempts[id].points, attempts[id].maxPoints))
    && (forall i, j :: 0 <= i < j < |scores| ==> scores[i].attempt != scores[j].attempt)
    && (forall id :: id in attempts && Scored(attempts[id]) ==> HasScore(scores, id))
  }

  ghost predicate HasScore(scores: seq<Score>, id: Id) {
    exists i :: 0 <= i < |scores| && scores[i].attempt == id
  }

  /** The lesson is completed once by each attempt that is graded a pass, and by no other. */
  ghost predicate CompletionsOk(attempts: map<Id, Attempt>, completions: seq<Id>) {
    && (forall id :: id in completions <==> id in attempts && CompletesLesson(attempts[id]))
    && Distinct(completions)
  }

  ghost predicate LogsOk(attempts: map<Id, Attempt>, scores: seq<Score>, completions: seq<Id>) {
    ScoresOk(attempts, scores) && CompletionsOk(attempts, completions)
  }

  ghost predicate Inv(s: State) {
    && QuestionsOk(s.questions)
    && ItemOk(s.questions, s.item)
    && AttemptsOk(s.questions, s.attempts, s.answers)
    && JobsOk(s.attempts, s.jobs)
    && NumberingOk(s.attempts)
    && LogsOk(s.attempts, s.scores, s.completions)
  }

  // ---- Sums over questions and grades ----

  lemma {:induction false} FindAppend(questions: seq<Question>, q: Question, id: Id)
    ensures Find(questions + [q], id) ==
            if Find(questions, id).Some? then Find(questions, id) else if q.id == id then Some(q) else None
  {
    if questions != [] {
      assert (questions + [q])[1..] == questions[1..] + [q];
      FindAppend(questions[1..], q, id);
    }
  }

  lemma WorthInAppend(questions: seq<Question>, q: Question, ids: set<Id>)
    requires ids <= QuestionIds(questions)
    ensures WorthIn(questions + [q], ids) == WorthIn(questions, ids)
  {
    forall k | k in ids ensures WorthOf(questions + [q], k) == WorthOf(questions, k) {
      FindAppend(questions, q, k);
    }
  }

  lemma WorthInSnoc(init: seq<Question>, last: Question)
    requires last.id !in QuestionIds(init)
    ensures WorthIn(init + [last], QuestionIds(init + [last])) ==
            WorthIn(init, QuestionIds(init))[last.id := last.points]
  {
    var ids := QuestionIds(init);
    WorthInAppend(init, last, ids);
    FindAppend(init, last, last.id);
    assert Find(init, last.id).None?;
    QuestionIdsSnoc(init, last);
    assert WorthOf(init + [last], last.id) == last.points;
    assert WorthIn(init + [last], ids + {last.id}) == WorthIn(init + [last], ids)[last.id := last.points];
  }

  lemma QuestionIdsSnoc(init: seq<Question>, last: Question)
    ensures QuestionIds(init + [last]) == QuestionIds(init) + {last.id}
  {
    assert last in init + [last];
    forall q | q in init ensures q in init + [last] {}
  }

  /** A quiz is worth the sum of its questions, counted by id. */
  lemma {:induction false} WorthSums(questions: seq<Question>)
    requires DistinctQuestions(questions)
    ensures SumMap(WorthIn(questions, QuestionIds(questions))) == Worth(questions)
  {
    if questions == [] {
      assert WorthIn(questions, QuestionIds(questions)) == map[];
    } else {
      var init, last := questions[..|questions| - 1], questions[|questions| - 1];
      assert questions == init + [last];
      WorthSums(init);
      assert last.id !in QuestionIds(init);
      WorthInSnoc(init, last);
      SumUpdate(WorthIn(init, QuestionIds(init)), last.id, last.points);
    }
  }

  ghost predicate DistinctGrades(grades: seq<AnswerGrade>) {
    forall i, j :: 0 <= i < j < |grades| ==> grades[i].questionId != grades[j].questionId
  }

  ghost function GradedIds(grades: seq<AnswerGrade>): set<Id> {
    set g | g in grades :: g.questionId
  }

  lemma GradedIdsSnoc(init: seq<AnswerGrade>, last: AnswerGrade)
    ensures GradedIds(init + [last]) == GradedIds(init) + {last.questionId}
  {
    assert last in init + [last];
    forall g | g in init ensures g in init + [last] {}
  }

  /** Rows exist for the graded questions and those already answered, and for no others. */
  lemma {:induction false} WrittenKeys(rows: Rows, grades: seq<AnswerGrade>)
    ensures Written(rows, grades).Keys == rows.Keys + GradedIds(grades)
  {
    if grades != [] {
      var init, last := grades[..|grades| - 1], grades[|grades| - 1];
      assert grades == init + [last];
      WrittenKeys(rows, init);
      GradedIdsSnoc(init, last);
    }
  }

  /** Each upserted row carries its own verdict. */
  lemma {:induction false} WrittenRow(rows: Rows, grades: seq<AnswerGrade>, i: nat)
    requires DistinctGrades(grades) && i < |grades|
    ensures grades[i].questionId in Written(rows, grades)
    ensures var row, v := Written(rows, grades)[grades[i].questionId], grades[i].verdict;
            (row.graded, row.correct, row.points) == (!v.manual, v.correct, v.points)
  {
    var init, last := grades[..|grades| - 1], grades[|grades| - 1];
    if i < |init| {
      assert grades[i] == init[i];
      WrittenRow(rows, init, i);
    }
  }

  lemma SumOfZeros(m: map<Id, int>)
    requires forall k :: k in m ==> m[k] == 0
    ensures SumMap(m) == 0
  {
    SumNonNegative(m);
    SumBounded(m, m);
    SumZeroBound(m);
  }

  lemma {:induction false} SumZeroBound(m: map<Id, int>)
    requires forall k :: k in m ==> m[k] == 0
    ensures SumMap(m) <= 0
    decreases |m|
  {
    if m != map[] {
      var k :| k in m;
      SumWithout(m, k);
      SmallerWithout(m, k);
      SumZeroBound(m - {k});
    }
  }

  /** Written over ungraded rows, the verdicts add up to what grading said it awarded. */
  lemma {:induction false} WrittenSums(rows: Rows, grades: seq<AnswerGrade>)
    requires DistinctGrades(grades) && Ungraded(rows)
    ensures SumMap(PointsIn(Written(rows, grades))) == Awarded(grades)
  {
    if grades == [] {
      SumOfZeros(PointsIn(rows));
    } else {
      var init, last := grades[..|grades| - 1], grades[|grades| - 1];
      WrittenSums(rows, init);
      WrittenSumsSnoc(Written(rows, init), last);
      assert last.questionId !in GradedIds(init) by {
        forall g | g in init ensures g.questionId != last.questionId {
          var i :| 0 <= i < |init| && init[i] == g;
          assert grades[i] == g;
        }
      }
      WrittenUntouched(rows, init, last.questionId);
    }
  }

  lemma WrittenSumsSnoc(rows: Rows, g: AnswerGrade)
    ensures SumMap(PointsIn(Upsert(rows, g))) ==
            SumMap(PointsIn(rows)) + g.verdict.points - (if g.questionId in rows then rows[g.questionId].points else 0)
  {
    assert PointsIn(Upsert(rows, g)) == PointsIn(rows)[g.questionId := g.verdict.points];
    SumUpdate(PointsIn(rows), g.questionId, g.verdict.points);
  }

  lemma {:induction false} WrittenUntouched(rows: Rows, grades: seq<AnswerGrade>, k: Id)
    requires k !in GradedIds(grades)
    ensures k in Written(rows, grades) <==> k in rows
    ensures k in rows ==> Written(rows, grades)[k] == rows[k]
  {
    if grades != [] {
      var init, last := grades[..|grades| - 1], grades[|grades| - 1];
      assert grades == init + [last];
      GradedIdsSnoc(init, last);
      WrittenUntouched(rows, init, k);
    }
  }

  // ---- The machine's roll-up and the database's ----

  lemma GradedIdsAreQuestionIds(rt: Runtime, questions: seq<Question>, responses: map<Id, Response>)
    requires DistinctQuestions(questions)
    ensures DistinctGrades(Grades(rt, questions, responses))
    ensures GradedIds(Grades(rt, questions, responses)) == QuestionIds(questions)
  {
    var grades := Grades(rt, questions, responses);
    forall q | q in questions ensures q.id in GradedIds(grades) {
      var i :| 0 <= i < |questions| && questions[i] == q;
      assert grades[i] in grades;
    }
    forall g | g in grades ensures g.questionId in QuestionIds(questions) {
      var i :| 0 <= i < |grades| && grades[i] == g;
      assert questions[i] in questions;
    }
  }

  lemma {:induction false} FindsItself(questions: seq<Question>, q: Question)
    requires DistinctQuestions(questions) && q in questions
    ensures Find(questions, q.id) == Some(q)
  {
    if questions[0] != q {
      var i :| 0 <= i < |questions| && questions[i] == q;
      assert questions[1..][i - 1] == q;
      FindsItself(questions[1..], q);
    }
  }

  lemma GradesAreBounded(rt: Runtime, questions: seq<Question>, responses: map<Id, Response>, i: nat)
    requires i < |questions| && questions[i].points >= 0
    ensures var v := Grades(rt, questions, responses)[i].verdict;
            0 <= v.points <= questions[i].points && v.manual == IsManual(questions[i].kind)
  {
    VerdictIsBounded(rt, questions[i], ResponseTo(responses, questions[i].id));
  }

  /** The row the job writes for one question: its verdict, ungraded exactly when a person must mark it. */
  lemma JobRow(rt: Runtime, questions: seq<Question>, rows: Rows, q: Question)
    requires DistinctQuestions(questions) && q in questions && q.points >= 0
    ensures var after := Written(rows, Grades(rt, questions, Responses(rows)));
            && q.id in after
            && after[q.id].graded == !IsManual(q.kind)
            && 0 <= after[q.id].points <= q.points
  {
    var i :| 0 <= i < |questions| && questions[i] == q;
    GradedIdsAreQuestionIds(rt, questions, Responses(rows));
    GradesAreBounded(rt, questions, Responses(rows), i);
    WrittenRow(rows, Grades(rt, questions, Responses(rows)), i);
  }

  lemma JobKeys(rt: Runtime, questions: seq<Question>, rows: Rows)
    requires DistinctQuestions(questions) && rows.Keys <= QuestionIds(questions)
    ensures Written(rows, Grades(rt, questions, Responses(rows))).Keys == QuestionIds(questions)
  {
    var grades := Grades(rt, questions, Responses(rows));
    GradedIdsAreQuestionIds(rt, questions, Responses(rows));
    WrittenKeys(rows, grades);
  }

  lemma JobRows(rt: Runtime, questions: seq<Question>, rows: Rows)
    requires DistinctQuestions(questions)
    requires forall q :: q in questions ==> q.points >= 0
    requires rows.Keys <= QuestionIds(questions)
    ensures var after := Written(rows, Grades(rt, questions, Responses(rows)));
            && after.Keys == QuestionIds(questions)
            && forall k :: k in after ==> 0 <= after[k].points <= WorthOf(questions, k)
  {
    JobKeys(rt, questions, rows);
    var after := Written(rows, Grades(rt, questions, Responses(rows)));
    forall k | k in after ensures 0 <= after[k].points <= WorthOf(questions, k) {
      assert k in QuestionIds(questions);
      var q :| q in questions && q.id == k;
      JobRow(rt, questions, rows, q);
      FindsItself(questions, q);
    }
  }

  lemma JobLeavesUnmarked(rt: Runtime, questions: seq<Question>, rows: Rows)
    requires DistinctQuestions(questions)
    requires forall q :: q in questions ==> q.points >= 0
    requires rows.Keys <= QuestionIds(questions)
    ensures Unmarked(Written(rows, Grades(rt, questions, Responses(rows)))) <==> AnyManual(questions)
  {
    var after := Written(rows, Grades(rt, questions, Responses(rows)));
    JobRows(rt, questions, rows);
    AnyManualIs(questions);
    if Unmarked(after) {
      var k :| k in after && !after[k].graded;
      var q :| q in questions && q.id == k;
      JobRow(rt, questions, rows, q);
    }
    if AnyManual(questions) {
      var q :| q in questions && IsManual(q.kind);
      JobRow(rt, questions, rows, q);
      assert !after[q.id].graded;
    }
  }

  /**
   Recomputing an attempt from the rows the job wrote changes nothing: the machine's totals and the
   database's summary of the same rows are one and the same, pass mark included.
   */
  lemma RollUpsAgree(rt: Runtime, questions: seq<Question>, rows: Rows, a: Attempt, passingPercent: int)
    requires DistinctQuestions(questions)
    requires forall q :: q in questions ==> q.points >= 0
    requires rows.Keys <= QuestionIds(questions) && Ungraded(rows)
    ensures var grades := Grades(rt, questions, Responses(rows));
            var stored := Finished(a, Awarded(grades), Worth(questions), AnyManual(questions), passingPercent);
            RolledUp(stored, Written(rows, grades), passingPercent) == stored
  {
    JobRows(rt, questions, rows);
    JobLeavesUnmarked(rt, questions, rows);
    GradedIdsAreQuestionIds(rt, questions, Responses(rows));
    WrittenSums(rows, Grades(rt, questions, Responses(rows)));
  }

  lemma JobCloses(rt: Runtime, questions: seq<Question>, rows: Rows, a: Attempt, passingPercent: int)
    requires DistinctQuestions(questions)
    requires forall q :: q in questions ==> q.points >= 0
    requires rows.Keys <= QuestionIds(questions) && Ungraded(rows)
    ensures var grades := Grades(rt, questions, Responses(rows));
            Closed(Finished(a, Awarded(grades), Worth(questions), AnyManual(questions), passingPercent),
                   Written(rows, grades), questions)
  {
    JobRows(rt, questions, rows);
    JobLeavesUnmarked(rt, questions, rows);
    GradedIdsAreQuestionIds(rt, questions, Responses(rows));
    WrittenSums(rows, Grades(rt, questions, Responses(rows)));
    WorthSums(questions);
  }

  /** No closed attempt is ever awarded more than it was scored out of, or less than nothing. */
  lemma PointsWithinMax(a: Attempt, rows: Rows, questions: seq<Question>)
    requires Closed(a, rows, questions)
    ensures 0 <= a.points <= a.maxPoints
  {
    SumNonNegative(PointsIn(rows));
    SumBounded(PointsIn(rows), WorthIn(questions, rows.Keys));
  }
}
