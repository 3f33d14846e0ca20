/** What the gradebook says a quiz is worth, and exactly which steps make it say something else. */
module GradebookItem {
  import opened Prelude
  import opened Quiz
  import opened Grading
  import opened Attempts
  import opened AttemptRuns
  import opened AttemptSafety

  /** The item is worth what the questions are worth, and there is none while that is nothing. */
  ghost predicate ItemTells(s: State) {
    s.item == if Worth(s.questions) > 0 then Some(Worth(s.questions)) else None
  }

  /** A removal that leaves a quiz worth something worth nothing. */
  ghost predicate EmptiesTheQuiz(s: State, step: Step) {
    step.Remove? && Worth(s.questions) > 0 && Worth(Without(s.questions, step.id)) <= 0
  }

  /** A mark of the last unmarked answer of an attempt scored out of something other than today's worth. */
  ghost predicate RestatesTheItem(s: State, step: Step) {
    && step.Mark?
    && MarkCheck(s, step.id, step.questionId, step.points).Ok?
    && step.questionId in RowsOf(s.answers, step.id)
    && (forall k :: k in RowsOf(s.answers, step.id) && k != step.questionId ==> RowsOf(s.answers, step.id)[k].graded)
    && s.attempts[step.id].maxPoints > 0
    && s.attempts[step.id].maxPoints != Worth(s.questions)
  }

  lemma {:induction false} WorthIsNotNegative(questions: seq<Question>)
    requires forall q :: q in questions ==> q.points >= 0
    ensures Worth(questions) >= 0
  {
    if questions != [] {
      assert questions[|questions| - 1] in questions;
      WorthIsNotNegative(questions[..|questions| - 1]);
    }
  }

  lemma MarkingIsPublishing(s: State, id: Id, question: Id, points: int)
    requires MarkAnswer(s, id, question, points).Ok?
    ensures var t := MarkAnswer(s, id, question, points).value;
            && t.questions == s.questions
            && t.item == Rescored(s.item, t.attempts[id])
            && t.attempts[id].maxPoints == s.attempts[id].maxPoints
            && (t.attempts[id].status == Graded <==>
                  forall k :: k in RowsOf(s.answers, id) && k != question ==> RowsOf(s.answers, id)[k].graded)
  {
    var t := MarkAnswer(s, id, question, points).value;
    var rows, marked := RowsOf(s.answers, id), RowsOf(t.answers, id);
    assert forall k :: k in rows && k != question ==> k in marked && marked[k] == rows[k];
    assert marked[question].graded;
    assert Unmarked(marked) <==> exists k :: k in rows && k != question && !rows[k].graded;
  }

  lemma MarkKeepsItemIff(s: State, id: Id, question: Id, points: int)
    requires QuestionsOk(s.questions) && ItemTells(s)
    ensures ItemTells(Kept(s, MarkAnswer(s, id, question, points))) <==>
            !RestatesTheItem(s, Mark(id, question, points))
  {
    WorthIsNotNegative(s.questions);
    if MarkAnswer(s, id, question, points).Ok? {
      MarkingIsPublishing(s, id, question, points);
    }
  }

  lemma AddKeepsItem(s: State, q: Question)
    requires QuestionsOk(s.questions) && ItemTells(s) && q.points >= 0
    ensures ItemTells(AddQuestion(s, q))
  {
    WorthIsNotNegative(s.questions);
    assert (s.questions + [q])[..|s.questions|] == s.questions;
  }

  lemma {:induction false} RemovingNothing(questions: seq<Question>, id: Id)
    requires Find(questions, id).None?
    ensures Without(questions, id) == questions
  {
    if questions != [] {
      var init, last := questions[..|questions| - 1], questions[|questions| - 1];
      assert questions == init + [last] && last in questions;
      FindAppend(init, last, id);
      RemovingNothing(init, id);
    }
  }

  lemma WorthOfOneMore(init: seq<Question>, last: Question)
    ensures Worth(init + [last]) == Worth(init) + last.points
  {
    assert (init + [last])[..|init|] == init;
  }

  lemma WithoutOfOneMore(init: seq<Question>, last: Question, id: Id)
    ensures Without(init + [last], id) == Without(init, id) + if last.id == id then [] else [last]
  {
    assert (init + [last])[..|init|] == init;
  }

  lemma {:induction false} RemovalIsNoGain(questions: seq<Question>, id: Id)
    requires forall i :: 0 <= i < |questions| ==> questions[i].points >= 0
    ensures Worth(Without(questions, id)) <= Worth(questions)
  {
    if questions != [] {
      var init, last := questions[..|questions| - 1], questions[|questions| - 1];
      RemovalIsNoGain(init, id);
      assert questions == init + [last];
      WithoutOfOneMore(init, last, id);
      WorthOfOneMore(init, last);
      WorthOfOneMore(Without(init, id), last);
      assert Without(init, id) + [] == Without(init, id);
    }
  }

  lemma RemoveKeepsItemIff(s: State, id: Id)
    requires QuestionsOk(s.questions) && ItemTells(s)
    ensures ItemTells(Kept(s, RemoveQuestion(s, id))) <==> !EmptiesTheQuiz(s, Remove(id))
  {
    WorthIsNotNegative(s.questions);
    if Find(s.questions, id).None? {
      RemovingNothing(s.questions, id);
    } else {
      WithoutKeepsTheRest(s.questions, id);
      WorthIsNotNegative(Without(s.questions, id));
      if Worth(s.questions) == 0 {
        RemovalIsNoGain(s.questions, id);
      }
    }
  }

  /**
   From a state where the gradebook is right, a step leaves it right if and only if it neither strips the quiz
   of all its worth nor finishes the marking of an attempt scored out of another total.
   */
  lemma ItemStaysRightIff(rt: Runtime, s: State, step: Step)
    requires QuestionsOk(s.questions) && ItemTells(s) && Permitted(s, step)
    ensures ItemTells(Next(rt, s, step)) <==> !EmptiesTheQuiz(s, step) && !RestatesTheItem(s, step)
  {
    match step
    case Add(q) => AddKeepsItem(s, q);
    case Remove(id) => RemoveKeepsItemIff(s, id);
    case Mark(id, question, points) => MarkKeepsItemIff(s, id, question, points);
    case _ => WorthIsNotNegative(s.questions);
  }

  /** Adding or removing a question puts the gradebook right, if that leaves the quiz worth something. */
  lemma EditingPutsTheItemRight(rt: Runtime, s: State, step: Step)
    requires step.Add? || (step.Remove? && Find(s.questions, step.id).Some?)
    requires Worth(Next(rt, s, step).questions) > 0
    ensures ItemTells(Next(rt, s, step))
  {
  }

  ghost predicate AllLeaveItemRight(rt: Runtime, s: State, steps: seq<Step>)
    decreases |steps|
  {
    steps == [] ||
    (&& !EmptiesTheQuiz(s, steps[0]) && !RestatesTheItem(s, steps[0])
     && AllLeaveItemRight(rt, Next(rt, s, steps[0]), steps[1..]))
  }

  /** Over any run without such a step the gradebook is right throughout. */
  lemma {:induction false} RunKeepsItemRight(rt: Runtime, s: State, steps: seq<Step>)
    requires QuestionsOk(s.questions) && ItemTells(s)
    requires AllPermitted(rt, s, steps) && AllLeaveItemRight(rt, s, steps)
    ensures ItemTells(After(rt, s, steps))
    decreases |steps|
  {
    if steps != [] {
      ItemStaysRightIff(rt, s, steps[0]);
      StepKeepsQuestions(rt, s, steps[0]);
      RunKeepsItemRight(rt, Next(rt, s, steps[0]), steps[1..]);
    }
  }
}
