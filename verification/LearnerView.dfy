/**
 The quiz as the person taking it sees it, and the sense in which it says nothing about the answers.

 Two questions have the same face when they differ only in what an author would call the answer: which
 options are correct, how the items of an ordering are arranged, which match belongs to which option,
 which spellings, regions, points and tolerance are accepted.
 */
module LearnerView {
  import opened Prelude
  import opened Quiz
  import opened Text
  import opened Sorting
  import opened GraphMatching
  import opened Grading
  import opened Authoring

  datatype LearnerOption = LearnerOption(id: Id, content: string)

  datatype LearnerQuestion = LearnerQuestion(
    id: Id,
    kind: QuestionType,
    prompt: string,
    points: int,
    position: int,
    options: seq<LearnerOption>,
    matches: seq<LearnerOption>,
    blanks: int,
    image: string)

  function IdOf(o: Choice): int { o.id }

  function FaceId(o: LearnerOption): int { o.id }

  function Faces(options: seq<Choice>): (faces: seq<LearnerOption>)
    ensures |faces| == |options|
    ensures forall i :: 0 <= i < |faces| ==> faces[i] == LearnerOption(options[i].id, options[i].content)
  {
    seq(|options|, i requires 0 <= i < |options| => LearnerOption(options[i].id, options[i].content))
  }

  function MatchFaces(options: seq<Choice>): (faces: seq<LearnerOption>)
    ensures |faces| == |options|
    ensures forall i :: 0 <= i < |faces| ==> faces[i] == LearnerOption(options[i].matchId, options[i].matchContent)
  {
    seq(|options|, i requires 0 <= i < |options| => LearnerOption(options[i].matchId, options[i].matchContent))
  }

  function ImageOf(q: Question): string {
    if q.spec.Some? then q.spec.value.image else ""
  }

  function View(q: Question): LearnerQuestion {
    LearnerQuestion(q.id, q.kind, q.prompt, q.points, q.position,
      Faces(if q.kind == Ordering then SortBy(q.options, IdOf) else q.options),
      if q.kind == Matching then SortBy(MatchFaces(q.options), FaceId) else [],
      if q.kind == ShortAnswer then 0 else |q.accepted|,
      ImageOf(q))
  }

  method QuestionForLearner(q: Question) returns (view: LearnerQuestion)
    ensures view == View(q)
  {
    var blanks := |q.accepted|;
    var image := "";
    if q.spec.Some? {
      image := q.spec.value.image;
    }
    if q.kind == ShortAnswer {
      blanks := 0;
    }
    var options := q.options;
    var matches: seq<LearnerOption> := [];
    if q.kind == Ordering {
      options := SortBy(options, IdOf);
    } else if q.kind == Matching {
      for i := 0 to |options|
        invariant matches == MatchFaces(options)[..i]
      {
        matches := matches + [LearnerOption(options[i].matchId, options[i].matchContent)];
      }
      assert matches == MatchFaces(options);
      matches := SortBy(matches, FaceId);
    }
    var shown: seq<LearnerOption> := [];
    for i := 0 to |options|
      invariant shown == Faces(options)[..i]
    {
      shown := shown + [LearnerOption(options[i].id, options[i].content)];
    }
    assert shown == Faces(options);
    return LearnerQuestion(q.id, q.kind, q.prompt, q.points, q.position, shown, matches, blanks, image);
  }

  function Views(questions: seq<Question>): seq<LearnerQuestion> {
    if questions == [] then [] else Views(questions[..|questions| - 1]) + [View(questions[|questions| - 1])]
  }

  method ForLearner(questions: seq<Question>) returns (views: seq<LearnerQuestion>, total: int)
    ensures views == Views(questions) && total == Worth(questions)
  {
    views, total := [], 0;
    for i := 0 to |questions|
      invariant views == Views(questions[..i])
      invariant total == Worth(questions[..i])
    {
      assert questions[..i + 1][..i] == questions[..i];
      total := total + questions[i].points;
      var view := QuestionForLearner(questions[i]);
      views := views + [view];
    }
    assert questions[..|questions|] == questions;
  }

  // ---- Independence of the answers ----

  /** The options' ids are row ids, and so are the matches'. */
  ghost predicate RowIds(q: Question) {
    Distinct(Ids(q.options)) && DistinctKeys(MatchFaces(q.options), FaceId)
  }

  /** The two questions differ at most in their answers. */
  ghost predicate SameFace(q: Question, p: Question) {
    && (q.id, q.kind, q.prompt, q.points, q.position) == (p.id, p.kind, p.prompt, p.points, p.position)
    && |q.accepted| == |p.accepted|
    && ImageOf(q) == ImageOf(p)
    && (if q.kind == Ordering || q.kind == Puzzle
        then multiset(Faces(q.options)) == multiset(Faces(p.options))
        else Faces(q.options) == Faces(p.options))
    && multiset(MatchFaces(q.options)) == multiset(MatchFaces(p.options))
  }

  lemma {:induction false} FacesOfInsert(x: Choice, s: seq<Choice>)
    ensures Faces(Insert(x, s, IdOf)) == Insert(LearnerOption(x.id, x.content), Faces(s), FaceId)
  {
    if s == [] || IdOf(x) <= IdOf(s[0]) {
      assert Faces([x] + s) == [LearnerOption(x.id, x.content)] + Faces(s);
    } else {
      FacesOfInsert(x, s[1..]);
      assert Faces(s)[1..] == Faces(s[1..]);
      var rest := Insert(x, s[1..], IdOf);
      assert Faces([s[0]] + rest) == [Faces(s)[0]] + Faces(rest);
    }
  }

  /** Sorting the options and then hiding their answers is hiding the answers and then sorting. */
  lemma {:induction false} FacesOfSort(options: seq<Choice>)
    ensures Faces(SortBy(options, IdOf)) == SortBy(Faces(options), FaceId)
  {
    if options != [] {
      FacesOfSort(options[1..]);
      FacesOfInsert(options[0], SortBy(options[1..], IdOf));
      assert Faces(options)[1..] == Faces(options[1..]);
    }
  }

  lemma SameItemsShownAlike(q: Question, p: Question)
    requires multiset(Faces(q.options)) == multiset(Faces(p.options))
    requires Distinct(Ids(q.options))
    ensures Faces(SortBy(q.options, IdOf)) == Faces(SortBy(p.options, IdOf))
  {
    FacesOfSort(q.options);
    FacesOfSort(p.options);
    forall i, j | 0 <= i < j < |q.options|
      ensures FaceId(Faces(q.options)[i]) != FaceId(Faces(q.options)[j])
    {
      assert Ids(q.options)[i] != Ids(q.options)[j];
    }
    SortIsCanonical(Faces(q.options), Faces(p.options), FaceId);
  }

  lemma SameFaceSameView(q: Question, p: Question)
    requires q.kind != Puzzle
    requires SameFace(q, p) && RowIds(q)
    ensures View(q) == View(p)
  {
    match q.kind
    case Ordering => SameItemsShownAlike(q, p);
    case Matching => SortIsCanonical(MatchFaces(q.options), MatchFaces(p.options), FaceId);
    case _ =>
  }

  /** A loaded puzzle shows its pieces in the very order that is its one right answer. */
  lemma PuzzleViewIsTheAnswer(rt: Runtime, q: Question, r: Response)
    requires q.kind == Puzzle && q.options != []
    requires SortedBy(q.options, PositionOf) && DistinctKeys(q.options, PositionOf)
    ensures Grade(rt, q, r).correct <==>
            |r.order| == |View(q).options| && forall i :: 0 <= i < |r.order| ==> r.order[i] == View(q).options[i].id
  {
    SortOfSorted(q.options, PositionOf);
  }

  /** Two puzzles of two pieces, authored in opposite orders. */
  function TwoPieces(kind: QuestionType, first: Id, second: Id): Question {
    Question(1, kind, "p", 1, 0, "", false, [], None,
      [Choice(first, "piece", 0, false, first, ""), Choice(second, "piece", 1, false, second, "")])
  }

  lemma PairEitherWay(a: LearnerOption, b: LearnerOption)
    ensures multiset([a, b]) == multiset([b, a])
  {
  }

  lemma TwoPiecesFaces(first: Id, second: Id)
    requires first != second
    ensures var q := TwoPieces(Puzzle, first, second);
            && Faces(q.options) == [LearnerOption(first, "piece"), LearnerOption(second, "piece")]
            && MatchFaces(q.options) == [LearnerOption(first, ""), LearnerOption(second, "")]
            && RowIds(q)
  {
  }

  lemma PuzzleViewsDiffer() returns (q: Question, p: Question)
    ensures q.kind == Puzzle && SameFace(q, p) && RowIds(q) && View(q) != View(p)
  {
    q, p := TwoPieces(Puzzle, 10, 20), TwoPieces(Puzzle, 20, 10);
    TwoPiecesFaces(10, 20);
    TwoPiecesFaces(20, 10);
    var a, b := LearnerOption(10, "piece"), LearnerOption(20, "piece");
    PairEitherWay(a, b);
    var c, d := LearnerOption(10, ""), LearnerOption(20, "");
    PairEitherWay(c, d);
    assert View(q).options[0] == a && View(p).options[0] == b;
  }

  /** The learner's view hides the answers of every type but one. */
  lemma ViewHidesAnswersIff(kind: QuestionType)
    ensures (forall q: Question, p: Question :: q.kind == kind && SameFace(q, p) && RowIds(q) ==> View(q) == View(p))
            <==> kind != Puzzle
  {
    if kind == Puzzle {
      var q, p := PuzzleViewsDiffer();
    } else {
      forall q: Question, p: Question | q.kind == kind && SameFace(q, p) && RowIds(q) ensures View(q) == View(p) {
        SameFaceSameView(q, p);
      }
    }
  }

  // ---- Whether the view is enough to answer from ----

  ghost function ShownIds(faces: seq<LearnerOption>): set<Id> {
    set f | f in faces :: f.id
  }

  /** Every id the response names, for a question of this type, is one the learner was shown. */
  ghost predicate UsesOnlyShown(view: LearnerQuestion, r: Response) {
    match view.kind
    case TrueFalse | SingleChoice | ImageAnswering | MultipleChoice =>
      Elements(r.choices) <= ShownIds(view.options)
    case Ordering | Puzzle => Elements(r.order) <= ShownIds(view.options)
    case Matching | ImageMatching =>
      r.pairs.Keys <= ShownIds(view.options) && r.pairs.Values <= ShownIds(view.matches)
    case _ => true
  }

  lemma SortingShowsTheSame(faces: seq<LearnerOption>)
    ensures ShownIds(SortBy(faces, FaceId)) == ShownIds(faces)
  {
    SortKeepsItems(faces, FaceId);
    forall f ensures f in SortBy(faces, FaceId) <==> f in faces {
      assert f in multiset(SortBy(faces, FaceId)) <==> f in multiset(faces);
    }
  }

  lemma EveryOptionIsShown(q: Question)
    ensures Elements(Ids(q.options)) <= ShownIds(View(q).options)
  {
    FacesOfSort(q.options);
    SortingShowsTheSame(Faces(q.options));
    forall i | 0 <= i < |q.options| ensures Ids(q.options)[i] in ShownIds(Faces(q.options)) {
      assert Faces(q.options)[i] in Faces(q.options);
    }
  }

  lemma EveryMatchIsShown(q: Question, i: nat)
    requires q.kind == Matching && i < |q.options|
    ensures q.options[i].matchId in ShownIds(View(q).matches)
  {
    SortingShowsTheSame(MatchFaces(q.options));
    assert MatchFaces(q.options)[i] in MatchFaces(q.options);
  }

  lemma KeyChoicesAreShown(rt: Runtime, q: Question)
    ensures Elements(KeyResponse(rt, q).choices) <= ShownIds(View(q).options)
  {
    EveryOptionIsShown(q);
    forall id | id in CorrectIds(q.options) ensures id in Elements(Ids(q.options)) {
      CorrectIdsAre(q.options, id);
      var i :| 0 <= i < |q.options| && q.options[i].id == id;
      assert Ids(q.options)[i] == id;
    }
  }

  lemma KeyOrderIsShown(rt: Runtime, q: Question)
    ensures Elements(KeyResponse(rt, q).order) <= ShownIds(View(q).options)
  {
    EveryOptionIsShown(q);
    var sorted := SortBy(q.options, PositionOf);
    SortKeepsItems(q.options, PositionOf);
    forall i | 0 <= i < |sorted| ensures Ids(sorted)[i] in Elements(Ids(q.options)) {
      assert sorted[i] in multiset(sorted) && sorted[i] in q.options;
      var j :| 0 <= j < |q.options| && q.options[j] == sorted[i];
      assert Ids(q.options)[j] == sorted[i].id;
    }
  }

  lemma KeyPairsAreShown(rt: Runtime, q: Question)
    requires q.kind == Matching && Distinct(Ids(q.options))
    ensures var pairs := KeyResponse(rt, q).pairs;
            pairs.Keys <= ShownIds(View(q).options) && pairs.Values <= ShownIds(View(q).matches)
  {
    EveryOptionIsShown(q);
    AuthoredPairsAt(q.options);
    var pairs := AuthoredPairs(q.options);
    forall m | m in pairs.Values ensures m in ShownIds(View(q).matches) {
      var id :| id in pairs && pairs[id] == m;
      var i :| 0 <= i < |q.options| && Ids(q.options)[i] == id;
      EveryMatchIsShown(q, i);
    }
  }

  lemma NoValuesNoPairs(pairs: map<Id, Id>)
    ensures pairs.Values == {} ==> pairs == map[]
  {
    if pairs != map[] {
      var id :| id in pairs;
      assert pairs[id] in pairs.Values;
    }
  }

  /** No match is shown for an image matching, so nothing said with the ids shown is right. */
  lemma ImageMatchingShowsNoMatches(rt: Runtime, q: Question, r: Response)
    requires q.kind == ImageMatching && UsesOnlyShown(View(q), r)
    ensures !Grade(rt, q, r).correct
  {
    NoValuesNoPairs(r.pairs);
  }

  lemma KeyIsShown(rt: Runtime, q: Question)
    requires q.kind != ImageMatching && Distinct(Ids(q.options))
    ensures UsesOnlyShown(View(q), KeyResponse(rt, q))
  {
    match q.kind
    case TrueFalse | SingleChoice | ImageAnswering | MultipleChoice => KeyChoicesAreShown(rt, q);
    case Ordering | Puzzle => KeyOrderIsShown(rt, q);
    case Matching => KeyPairsAreShown(rt, q);
    case _ =>
  }

  /**
   A question an author saved for the machine to grade can be answered right with what its learner is shown if
   and only if it is not an image matching.
   */
  lemma AnswerableFromTheViewIff(rt: Runtime, n: NewQuestion, ids: FreshIds, position: int)
    requires Valid(rt, n) && UsableFor(ids, n) && !IsManual(n.kind)
    ensures var q := Stored(n, ids, position);
            (exists r :: UsesOnlyShown(View(q), r) && Grade(rt, q, r).correct) <==> n.kind != ImageMatching
  {
    var q := Stored(n, ids, position);
    if n.kind == ImageMatching {
      forall r | UsesOnlyShown(View(q), r) ensures !Grade(rt, q, r).correct {
        ImageMatchingShowsNoMatches(rt, q, r);
      }
    } else {
      assert Ids(q.options) == ids.options;
      KeyIsShown(rt, q);
      ValidQuestionsAreAnswerable(rt, n, ids, position);
      assert UsesOnlyShown(View(q), KeyResponse(rt, q)) && Grade(rt, q, KeyResponse(rt, q)).correct;
    }
  }

  lemma OneLetterIsNotBlank()
    ensures !Blank("a")
  {
    assert !IsSpace('a');
  }

  /** There are such questions: two pictures and two captions are enough. */
  lemma SomeImageMatchingIsValid(rt: Runtime) returns (n: NewQuestion, ids: FreshIds)
    ensures n.kind == ImageMatching && Valid(rt, n) && UsableFor(ids, n)
  {
    var pair := NewOption("a", false, "a");
    n := NewQuestion(ImageMatching, "a", 1, "", false, [], None, [pair, pair]);
    ids := FreshIds(1, [2, 3], [4, 5]);
    OneLetterIsNotBlank();
  }

  // ---- What is shown ----

  /** Everything the learner needs: the question as asked, and every option with its words, in an order of its own. */
  lemma TheQuestionIsShown(q: Question)
    ensures var v := View(q);
            && (v.id, v.kind, v.prompt, v.points, v.position) == (q.id, q.kind, q.prompt, q.points, q.position)
            && v.image == (if q.spec.Some? then q.spec.value.image else "")
            && v.blanks == (if q.kind == ShortAnswer then 0 else |q.accepted|)
  {
  }

  lemma TheOptionsAreShown(q: Question)
    ensures var v := View(q);
            && |v.options| == |q.options| && multiset(v.options) == multiset(Faces(q.options))
            && (q.kind == Ordering ==> SortedBy(v.options, FaceId))
            && (q.kind != Ordering ==>
                  forall i :: 0 <= i < |q.options| ==>
                    (v.options[i].id, v.options[i].content) == (q.options[i].id, q.options[i].content))
  {
    FacesOfSort(q.options);
    SortKeepsItems(Faces(q.options), FaceId);
    SortBySorts(Faces(q.options), FaceId);
  }

  /** A matching shows every second half, parted from its first; nothing else has any. */
  lemma TheMatchesAreShown(q: Question)
    ensures var v := View(q);
            if q.kind == Matching
            then multiset(v.matches) == multiset(MatchFaces(q.options)) && SortedBy(v.matches, FaceId)
            else v.matches == []
  {
    SortKeepsItems(MatchFaces(q.options), FaceId);
    SortBySorts(MatchFaces(q.options), FaceId);
  }

  lemma {:induction false} OneViewEach(questions: seq<Question>)
    ensures |Views(questions)| == |questions|
  {
    if questions != [] {
      OneViewEach(questions[..|questions| - 1]);
    }
  }

  lemma LastIsShownLast(questions: seq<Question>)
    requires questions != []
    ensures Views(questions) == Views(questions[..|questions| - 1]) + [View(questions[|questions| - 1])]
  {
  }

  lemma {:induction false} EveryQuestionIsShown(questions: seq<Question>, i: nat)
    requires i < |questions|
    ensures |Views(questions)| == |questions| && Views(questions)[i] == View(questions[i])
  {
    var init := questions[..|questions| - 1];
    OneViewEach(init);
    LastIsShownLast(questions);
    if i < |init| {
      EveryQuestionIsShown(init, i);
      assert init[i] == questions[i];
    }
  }
}
