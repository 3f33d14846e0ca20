/** The quiz engine's operations as the code performs them, each proved to be the step of module Attempts. */
module Desk {
  import opened Prelude
  import opened Quiz
  import opened Grading
  import opened Authoring
  import opened Sums
  import opened Uploads
  import opened Attempts

  // ---- Listings ----

  /** Distinct attempts of the learner by descending number, none newer left out, and as many as the limit allows. */
  ghost predicate IsListing(attempts: map<Id, Attempt>, user: Id, limit: nat, listed: seq<Id>) {
    && Distinct(listed) && (forall i :: 0 <= i < |listed| ==> listed[i] in AttemptsOf(attempts, user))
    && |listed| == (if |AttemptsOf(attempts, user)| > limit then limit else |AttemptsOf(attempts, user)|)
    && (forall i, j :: 0 <= i < j < |listed| ==> attempts[listed[i]].number >= attempts[listed[j]].number)
    && (forall i, a :: 0 <= i < |listed| && a in AttemptsOf(attempts, user) && a !in listed ==>
          attempts[listed[i]].number >= attempts[a].number)
  }

  ghost predicate IsListingSoFar(attempts: map<Id, Attempt>, user: Id, limit: nat, listed: seq<Id>, pending: set<Id>) {
    && Distinct(listed) && |listed| <= limit
    && Elements(listed) + pending == AttemptsOf(attempts, user) && Elements(listed) !! pending
    && (forall i :: 0 <= i < |listed| ==> listed[i] in attempts)
    && (forall i, j :: 0 <= i < j < |listed| ==> attempts[listed[i]].number >= attempts[listed[j]].number)
    && (forall i, a :: 0 <= i < |listed| && a in pending ==> attempts[listed[i]].number >= attempts[a].number)
  }

  lemma ListingGrows(attempts: map<Id, Attempt>, user: Id, limit: nat, listed: seq<Id>, pending: set<Id>, a: Id)
    requires IsListingSoFar(attempts, user, limit, listed, pending) && |listed| < limit
    requires a in pending && forall b :: b in pending ==> attempts[b].number <= attempts[a].number
    ensures IsListingSoFar(attempts, user, limit, listed + [a], pending - {a})
  {
    assert a in AttemptsOf(attempts, user);
    assert Elements(listed + [a]) == Elements(listed) + {a};
    assert forall i :: 0 <= i < |listed| ==> listed[i] in Elements(listed);
  }

  lemma ListingEnds(attempts: map<Id, Attempt>, user: Id, limit: nat, listed: seq<Id>, pending: set<Id>)
    requires IsListingSoFar(attempts, user, limit, listed, pending)
    requires |listed| == limit || pending == {}
    ensures IsListing(attempts, user, limit, listed)
  {
    ElementsSize(listed);
    forall i | 0 <= i < |listed| ensures listed[i] in AttemptsOf(attempts, user) {
      assert listed[i] in Elements(listed);
    }
    assert |AttemptsOf(attempts, user)| == |Elements(listed)| + |pending|;
    forall a | a in AttemptsOf(attempts, user) && a !in listed ensures a in pending {
      assert a !in Elements(listed);
    }
  }

  class QuizDesk {
    var settings: Settings
    var questions: seq<Question>
    var attempts: map<Id, Attempt>
    var answers: map<Id, Rows>
    var jobs: map<Id, Job>
    var scores: seq<Score>
    var completions: seq<Id>
    var item: Option<int>

    ghost function Now(): State
      reads this
    {
      State(settings, questions, attempts, answers, jobs, scores, completions, item)
    }

    constructor (settings: Settings)
      ensures Now() == State(settings, [], map[], map[], map[], [], [], None)
    {
      this.settings := settings;
      questions, attempts, answers, jobs := [], map[], map[], map[];
      scores, completions, item := [], [], None;
    }

    method EnsureItem(total: int)
      modifies this`item
      ensures item == Ensured(old(item), total)
    {
      if total <= 0 {
        return;
      }
      item := Some(total);
    }

    method SyncItem()
      modifies this`item
      ensures item == Ensured(old(item), Worth(questions))
    {
      var total := 0;
      for i := 0 to |questions|
        invariant total == Worth(questions[..i]) && item == old(item)
      {
        assert questions[..i + 1][..i] == questions[..i];
        total := total + questions[i].points;
      }
      assert questions[..|questions|] == questions;
      EnsureItem(total);
    }

    method ComputePosition() returns (next: int)
      ensures next == NextPosition(questions)
    {
      next := 0;
      for i := 0 to |questions|
        invariant next == NextPosition(questions[..i])
      {
        assert questions[..i + 1][..i] == questions[..i];
        if i == 0 || questions[i].position + 1 > next {
          next := questions[i].position + 1;
        }
      }
      assert questions[..|questions|] == questions;
    }

    /** Write a question and its options: the arrays are built in a loop and ranked from one, less one. */
    method CreateQuestion(n: NewQuestion, ids: FreshIds) returns (q: Question)
      requires UsableFor(ids, n)
      modifies this`questions
      ensures q == Stored(n, ids, NextPosition(old(questions)))
      ensures questions == old(questions) + [q]
    {
      var position := ComputePosition();
      var options: seq<Choice> := [];
      for i := 0 to |n.options|
        invariant options == Stored(n, ids, position).options[..i]
      {
        var rank := i + 1;
        options := options + [Choice(ids.options[i], n.options[i].content, rank - 1, n.options[i].isCorrect,
                                     ids.matches[i], n.options[i].matchContent)];
      }
      q := Question(ids.question, n.kind, n.prompt, n.points, position, n.explanation, n.caseSensitive, n.accepted,
                    n.spec, options);
      questions := questions + [q];
    }

    /** Appends a question already known to be valid, and tells the gradebook what the quiz is worth now. */
    method InsertQuestion(n: NewQuestion, ids: FreshIds) returns (q: Question)
      requires UsableFor(ids, n)
      modifies this
      ensures q == Stored(n, ids, NextPosition(old(questions))) && Now() == AddQuestion(old(Now()), q)
    {
      q := CreateQuestion(n, ids);
      SyncItem();
    }

    method AppendQuestion(rt: Runtime, n: NewQuestion, ids: FreshIds) returns (r: Result<Question, Refusal>)
      requires UsableFor(ids, n)
      modifies this
      ensures !Valid(rt, n) ==> r == Err(InvalidQuestion) && Now() == old(Now())
      ensures Valid(rt, n) ==>
        && r == Ok(Stored(n, ids, NextPosition(old(questions))))
        && Now() == AddQuestion(old(Now()), r.value)
    {
      var ok := Validate(rt, n);
      if !ok {
        return Err(InvalidQuestion);
      }
      var q := InsertQuestion(n, ids);
      return Ok(q);
    }

    method DropQuestion(id: Id)
      modifies this`questions
      ensures questions == Without(old(questions), id)
    {
      var kept: seq<Question> := [];
      for i := 0 to |questions|
        invariant kept == Without(questions[..i], id)
      {
        assert questions[..i + 1][..i] == questions[..i];
        if questions[i].id != id {
          kept := kept + [questions[i]];
        }
      }
      assert questions[..|questions|] == questions;
      questions := kept;
    }

    method DeleteQuestion(id: Id) returns (r: Result<(), Refusal>)
      modifies this
      ensures match RemoveQuestion(old(Now()), id)
              case Ok(s) => r == Ok(()) && Now() == s
              case Err(e) => r == Err(e) && Now() == old(Now())
    {
      var found := FindQuestion(id);
      if found.None? {
        return Err(NotFound);
      }
      DropQuestion(id);
      answers := map a | a in answers :: answers[a] - {id};
      SyncItem();
      return Ok(());
    }

    method FindQuestion(id: Id) returns (found: Option<Question>)
      ensures found == Find(questions, id)
    {
      for i := 0 to |questions|
        invariant Find(questions, id) == Find(questions[i..], id)
      {
        if questions[i].id == id {
          return Some(questions[i]);
        }
      }
      return None;
    }

    method SelectLive(user: Id) returns (live: Option<Id>)
      ensures live.Some? ==> IsLive(attempts, user, live.value)
      ensures live.None? ==> !HasLive(attempts, user)
    {
      var pending := attempts.Keys;
      while pending != {}
        invariant pending <= attempts.Keys
        invariant forall a :: IsLive(attempts, user, a) ==> a in pending
      {
        var a :| a in pending;
        if attempts[a].user == user && attempts[a].status == InProgress {
          return Some(a);
        }
        pending := pending - {a};
      }
      return None;
    }

    /** The attempt with the highest number among these. */
    method Newest(ids: set<Id>) returns (newest: Id)
      requires ids != {} && ids <= attempts.Keys
      ensures newest in ids && forall a :: a in ids ==> attempts[a].number <= attempts[newest].number
    {
      newest :| newest in ids;
      var pending := ids - {newest};
      while pending != {}
        invariant newest in ids && pending <= ids
        invariant forall a :: a in ids && a !in pending ==> attempts[a].number <= attempts[newest].number
        decreases pending
      {
        var a :| a in pending;
        if attempts[a].number > attempts[newest].number {
          newest := a;
        }
        pending := pending - {a};
      }
    }

    /** A learner's attempts, newest first and cut at the limit. */
    method ListAttempts(user: Id, limit: nat) returns (listed: seq<Id>)
      ensures IsListing(attempts, user, limit, listed)
    {
      listed := [];
      var pending := AttemptsOf(attempts, user);
      while |listed| < limit && pending != {}
        invariant IsListingSoFar(attempts, user, limit, listed, pending)
        decreases pending
      {
        var a := Newest(pending);
        ListingGrows(attempts, user, limit, listed, pending, a);
        listed, pending := listed + [a], pending - {a};
      }
      ListingEnds(attempts, user, limit, listed, pending);
    }

    /** The number the insert computes: coalesce(max(number) + 1, 1). */
    method NextAttemptNumber(user: Id) returns (next: nat)
      requires Numbered(attempts)
      ensures next == |AttemptsOf(attempts, user)| + 1
    {
      var mine := AttemptsOf(attempts, user);
      next := 1;
      if mine != {} {
        var a := Newest(mine);
        next := attempts[a].number + 1;
      }
      NextNumber(attempts, user, next);
    }

    /** Opens an attempt or hands back the open one. `Numbered` is what makes max + 1 the next number. */
    method Start(user: Id, now: int, newId: Id) returns (r: Result<Id, Refusal>)
      requires newId !in attempts && Numbered(attempts)
      modifies this
      ensures match StartAttempt(old(Now()), user, now, newId)
              case Ok(s) => r.Ok? && Now() == s && IsLive(attempts, user, r.value)
              case Err(e) => r == Err(e) && Now() == old(Now())
      ensures old(questions) != [] && old(HasLive(attempts, user)) ==>
        r.Ok? && IsLive(old(attempts), user, r.value) && Now() == old(Now())
      ensures r.Ok? && !old(HasLive(attempts, user)) ==> r.value == newId
    {
      if |questions| == 0 {
        return Err(EmptyQuiz);
      }
      var live := SelectLive(user);
      if live.Some? {
        return Ok(live.value);
      }
      var past := ListAttempts(user, MAX_ATTEMPTS_LISTED);
      if settings.maxAttempts > 0 && |past| >= settings.maxAttempts {
        return Err(AttemptsExhausted);
      }
      var expiresAt := None;
      if settings.timeLimitSeconds > 0 {
        expiresAt := Some(now + settings.timeLimitSeconds);
      }
      var next := NextAttemptNumber(user);
      attempts := attempts[newId := Attempt(user, next, InProgress, expiresAt, 0, 0, None)];
      return Ok(newId);
    }

    method Save(user: Id, question: Id, response: Response, now: int) returns (r: Result<(), Refusal>)
      requires OneLive(attempts)
      modifies this
      ensures match SaveAnswer(old(Now()), user, question, response, now)
              case Ok(s) => r == Ok(()) && Now() == s
              case Err(e) => r == Err(e) && Now() == old(Now())
    {
      var live := SelectLive(user);
      if live.None? {
        return Err(NotFound);
      }
      var a := live.value;
      if Expired(attempts[a], now) {
        return Err(AttemptExpired);
      }
      if response.upload != "" {
        if !(DrawPrefix(a, question, user) + "/" <= response.upload) {
          return Err(InvalidUpload);
        }
      }
      var found := FindQuestion(question);
      if found.None? {
        return Err(NotFound);
      }
      var rows := RowsOf(answers, a);
      if question in rows {
        rows := rows[question := rows[question].(response := response)];
      } else {
        rows := rows[question := Answer(response, false, false, 0)];
      }
      answers := answers[a := rows];
      return Ok(());
    }

    method CloseAttempt(a: Id) returns (closed: bool)
      modifies this`attempts
      ensures closed == (a in old(attempts) && old(attempts)[a].status == InProgress)
      ensures attempts == if closed then old(attempts)[a := old(attempts)[a].(status := InGrading)] else old(attempts)
    {
      closed := a in attempts && attempts[a].status == InProgress;
      if closed {
        attempts := attempts[a := attempts[a].(status := InGrading)];
      }
    }

    method Submit(user: Id) returns (r: Result<(), Refusal>)
      requires OneLive(attempts)
      modifies this
      ensures match SubmitAttempt(old(Now()), user)
              case Ok(s) => r == Ok(()) && Now() == s
              case Err(e) => r == Err(e) && Now() == old(Now())
    {
      var live := SelectLive(user);
      if live.None? {
        return Err(NotFound);
      }
      var closed := CloseAttempt(live.value);
      if !closed {
        return Err(AttemptClosed);
      }
      jobs := jobs[live.value := Job(Queued, false)];
      return Ok(());
    }

    /** One statement: every verdict is upserted on (attempt, question). */
    method WriteGrades(a: Id, grades: seq<AnswerGrade>)
      modifies this`answers
      ensures answers == if grades == [] then old(answers)
                         else old(answers)[a := Written(RowsOf(old(answers), a), grades)]
    {
      if |grades| == 0 {
        return;
      }
      var rows := RowsOf(answers, a);
      for i := 0 to |grades|
        invariant rows == Written(RowsOf(answers, a), grades[..i])
      {
        assert grades[..i + 1][..i] == grades[..i];
        var g := grades[i];
        if g.questionId in rows {
          rows := rows[g.questionId := rows[g.questionId].(graded := !g.verdict.manual, correct := g.verdict.correct,
                                                           points := g.verdict.points)];
        } else {
          rows := rows[g.questionId := Answer(EMPTY_RESPONSE, !g.verdict.manual, g.verdict.correct, g.verdict.points)];
        }
      }
      assert grades[..|grades|] == grades;
      answers := answers[a := rows];
    }

    /** The item is upserted with the attempt's own maximum, and then the score. */
    method Record(id: Id, a: Attempt)
      modifies this`scores, this`item
      ensures scores == Recorded(old(scores), id, a) && item == Rescored(old(item), a)
    {
      if a.status != Graded || a.maxPoints <= 0 {
        return;
      }
      item := Some(a.maxPoints);
      scores := scores + [Score(id, a.user, a.points, a.maxPoints)];
    }

    method Settle(id: Id, a: Attempt)
      modifies this`completions
      ensures completions == Settled(old(completions), id, a)
    {
      if a.status != Graded || a.passed.None? || !a.passed.value {
        return;
      }
      completions := completions + [id];
    }

    method FinishGrading(id: Id, result: Outcome) returns (a: Attempt)
      requires id in attempts
      modifies this`attempts
      ensures a == Finished(old(attempts)[id], result.points, result.maxPoints, result.awaitingReview,
                            settings.passingPercent)
      ensures attempts == old(attempts)[id := a]
    {
      var status, verdict := Graded, None;
      if result.awaitingReview {
        status := AwaitingReview;
      } else {
        verdict := Some(Passed(result.points, result.maxPoints, settings.passingPercent));
      }
      a := attempts[id].(status := status, points := result.points, maxPoints := result.maxPoints, passed := verdict);
      attempts := attempts[id := a];
    }

    method Publish(id: Id, a: Attempt)
      modifies this`scores, this`completions, this`item
      ensures scores == Recorded(old(scores), id, a) && completions == Settled(old(completions), id, a)
      ensures item == Rescored(old(item), a)
    {
      Record(id, a);
      Settle(id, a);
    }

    method GradeClosed(rt: Runtime, id: Id)
      requires id in attempts
      modifies this
      ensures Now() == GradedNow(rt, old(Now()), id)
    {
      var rows := RowsOf(answers, id);
      var result := GradeAttempt(rt, questions, Responses(rows));
      WriteGrades(id, result.answers);
      var graded := FinishGrading(id, result);
      Publish(id, graded);
    }

    method RunGradingJob(rt: Runtime, id: Id) returns (r: Result<(), Refusal>)
      modifies this
      ensures match DeliverJob(rt, old(Now()), id)
              case Ok(s) => r == Ok(()) && Now() == s
              case Err(e) => r == Err(e) && Now() == old(Now())
    {
      if id !in attempts {
        return Err(NotFound);
      }
      if attempts[id].status != InGrading {
        return Ok(());
      }
      GradeClosed(rt, id);
      return Ok(());
    }

    /** The worker's delivery; `worked` is the job table's memory of it. */
    method Work(rt: Runtime, id: Id)
      modifies this
      ensures Now() == WorkJob(rt, old(Now()), id)
    {
      var r := RunGradingJob(rt, id);
      jobs := Noted(jobs, id);
    }

    /** sum(points) and count(*) FILTER (WHERE NOT graded), over the rows in whatever order they come. */
    method Summarise(rows: Rows) returns (points: int, unmarked: nat)
      ensures points == SumMap(PointsIn(rows))
      ensures unmarked > 0 <==> Unmarked(rows)
    {
      points, unmarked := 0, 0;
      var rest := rows;
      while rest != map[]
        invariant points + SumMap(PointsIn(rest)) == SumMap(PointsIn(rows))
        invariant Unmarked(rows) <==> unmarked > 0 || Unmarked(rest)
        decreases |rest|
      {
        var k :| k in rest;
        OneRowLess(rest, k);
        points := points + rest[k].points;
        if !rest[k].graded {
          unmarked := unmarked + 1;
        }
        rest := rest - {k};
      }
    }

    method RecomputeAttempt(id: Id) returns (a: Attempt)
      requires id in attempts
      modifies this`attempts
      ensures a == RolledUp(old(attempts)[id], RowsOf(answers, id), settings.passingPercent)
      ensures attempts == old(attempts)[id := a]
    {
      var points, unmarked := Summarise(RowsOf(answers, id));
      a := attempts[id];
      var passed :=
        if unmarked > 0 then None
        else if a.maxPoints <= 0 then Some(true)
        else Some(points * 100 >= settings.passingPercent * a.maxPoints);
      a := a.(points := points, status := if unmarked > 0 then AwaitingReview else Graded, passed := passed);
      attempts := attempts[id := a];
    }

    method CheckMark(id: Id, question: Id, points: int) returns (r: Result<Question, Refusal>)
      ensures r == MarkCheck(Now(), id, question, points)
    {
      if id !in attempts {
        return Err(NotFound);
      }
      if attempts[id].status != AwaitingReview {
        return Err(NotAwaitingReview);
      }
      var found := FindQuestion(question);
      if found.None? {
        return Err(NotFound);
      }
      if !IsManual(found.value.kind) {
        return Err(NotManual);
      }
      if points < 0 || points > found.value.points {
        return Err(InvalidGrade);
      }
      return Ok(found.value);
    }

    /** The guarded UPDATE of one answer row; matching no row is how it says there was none. */
    method StoreMark(id: Id, question: Id, correct: bool, points: int) returns (stored: bool)
      modifies this`answers
      ensures stored ==> question in RowsOf(old(answers), id)
      ensures MarkCheck(Now(), id, question, points).Ok? ==> stored == (question in RowsOf(old(answers), id))
      ensures stored ==>
        var row := RowsOf(old(answers), id)[question].(graded := true, correct := correct, points := points);
        answers == old(answers)[id := RowsOf(old(answers), id)[question := row]]
      ensures !stored ==> answers == old(answers)
    {
      var found := FindQuestion(question);
      var rows := RowsOf(answers, id);
      stored := question in rows && found.Some? && IsManual(found.value.kind) && points <= found.value.points
        && id in attempts && attempts[id].status == AwaitingReview;
      if stored {
        var row := rows[question].(graded := true, correct := correct, points := points);
        answers := answers[id := rows[question := row]];
      }
    }

    method Mark(id: Id, question: Id, points: int) returns (r: Result<(), Refusal>)
      modifies this
      ensures match MarkAnswer(old(Now()), id, question, points)
              case Ok(s) => r == Ok(()) && Now() == s
              case Err(e) => r == Err(e) && Now() == old(Now())
    {
      var checked := CheckMark(id, question, points);
      if checked.Err? {
        return Err(checked.error);
      }
      var stored := StoreMark(id, question, points == checked.value.points, points);
      if !stored {
        return Err(NotFound);
      }
      var a := RecomputeAttempt(id);
      Publish(id, a);
      return Ok(());
    }
  }
}
