/**
 The question bank: a quiz question copied into it, and a bank question copied out into a quiz.

 A copy gets new ids for its options and matches and nothing else may change: the copy must validate
 again, and it must grade every response as the original grades it.
 */
module QuestionBank {
  import opened Prelude
  import opened Quiz
  import opened Sorting
  import opened GraphMatching
  import opened Grading
  import opened Authoring
  import opened Attempts
  import opened Desk

  /** A row of bank_question_options; the bank keeps no option or match ids anybody answers with. */
  datatype BankOption = BankOption(content: string, isCorrect: bool, matchContent: string, position: int)

  datatype BankQuestion = BankQuestion(
    kind: QuestionType,
    prompt: string,
    points: int,
    explanation: string,
    caseSensitive: bool,
    accepted: seq<seq<string>>,
    spec: Option<Spec>,
    category: string,
    options: seq<BankOption>)

  function BankPositionOf(o: BankOption): int { o.position }

  /** loadAsNew over the quiz tables: the author's form of a stored question, options by position. */
  function AsNew(q: Question): NewQuestion {
    var rows := SortBy(q.options, PositionOf);
    NewQuestion(q.kind, q.prompt, q.points, q.explanation, q.caseSensitive, q.accepted, q.spec,
      seq(|rows|, i requires 0 <= i < |rows| => NewOption(rows[i].content, rows[i].isCorrect, rows[i].matchContent)))
  }

  /** loadAsNew over the bank tables. */
  function BankAsNew(b: BankQuestion): NewQuestion {
    var rows := SortBy(b.options, BankPositionOf);
    NewQuestion(b.kind, b.prompt, b.points, b.explanation, b.caseSensitive, b.accepted, b.spec,
      seq(|rows|, i requires 0 <= i < |rows| => NewOption(rows[i].content, rows[i].isCorrect, rows[i].matchContent)))
  }

  /** What SaveToBank leaves in the bank tables. */
  function Banked(n: NewQuestion, category: string): BankQuestion {
    BankQuestion(n.kind, n.prompt, n.points, n.explanation, n.caseSensitive, n.accepted, n.spec, category,
      seq(|n.options|, i requires 0 <= i < |n.options| =>
        BankOption(n.options[i].content, n.options[i].isCorrect, n.options[i].matchContent, i)))
  }

  /** The bank of one workspace, and the desk of the lesson a question is added to, if it has a quiz. */
  class BankDesk {
    var desk: QuizDesk?
    var bank: map<Id, BankQuestion>

    constructor (desk: QuizDesk?)
      ensures this.desk == desk && bank == map[]
    {
      this.desk, bank := desk, map[];
    }

    method SaveToBank(n: NewQuestion, category: string, bankId: Id)
      requires bankId !in bank
      modifies this`bank
      ensures bank == old(bank)[bankId := Banked(n, category)]
    {
      var options: seq<BankOption> := [];
      for i := 0 to |n.options|
        invariant options == Banked(n, category).options[..i]
      {
        var rank := i + 1;
        var o := n.options[i];
        options := options + [BankOption(o.content, o.isCorrect, o.matchContent, rank - 1)];
      }
      assert options == Banked(n, category).options;
      bank := bank[bankId := BankQuestion(n.kind, n.prompt, n.points, n.explanation, n.caseSensitive, n.accepted,
                                          n.spec, category, options)];
    }

    /** The question is looked for in the quiz of this desk. */
    method SaveQuestionToBank(questionId: Id, category: string, bankId: Id) returns (r: Result<Id, Refusal>)
      requires bankId !in bank
      modifies this`bank
      ensures desk == null ==> r == Err(NotFound) && bank == old(bank)
      ensures desk != null ==>
        match Find(desk.questions, questionId)
        case None => r == Err(NotFound) && bank == old(bank)
        case Some(q) => r == Ok(bankId) && bank == old(bank)[bankId := Banked(AsNew(q), category)]
    {
      if desk == null {
        return Err(NotFound);
      }
      var found := desk.FindQuestion(questionId);
      if found.None? {
        return Err(NotFound);
      }
      var n := AsNew(found.value);
      SaveToBank(n, category, bankId);
      return Ok(bankId);
    }

    /** Looked up, validated again, and then appended like any other question, the gradebook told. */
    method AddBankQuestionToQuiz(rt: Runtime, bankId: Id, ids: FreshIds) returns (r: Result<Question, Refusal>)
      requires bankId in bank ==> UsableFor(ids, BankAsNew(bank[bankId]))
      modifies desk
      ensures r.Err? && desk != null ==> desk.Now() == old(desk.Now())
      ensures bankId !in bank ==> r == Err(NotFound)
      ensures bankId in bank && !Valid(rt, BankAsNew(bank[bankId])) ==> r == Err(InvalidQuestion)
      ensures bankId in bank && Valid(rt, BankAsNew(bank[bankId])) && desk == null ==> r == Err(NotFound)
      ensures bankId in bank && Valid(rt, BankAsNew(bank[bankId])) && desk != null ==>
        && r == Ok(Stored(BankAsNew(bank[bankId]), ids, NextPosition(old(desk.questions))))
        && desk.Now() == AddQuestion(old(desk.Now()), r.value)
    {
      if bankId !in bank {
        return Err(NotFound);
      }
      var n := BankAsNew(bank[bankId]);
      var ok := Validate(rt, n);
      if !ok {
        return Err(InvalidQuestion);
      }
      if desk == null {
        return Err(NotFound);
      }
      var q := desk.InsertQuestion(n, ids);
      return Ok(q);
    }
  }

  // ---- Nothing is lost on the way ----

  lemma StoredRowsSortBack(n: NewQuestion, ids: FreshIds, position: int, rows: seq<Choice>)
    requires UsableFor(ids, n)
    requires multiset(rows) == multiset(Stored(n, ids, position).options)
    ensures SortBy(rows, PositionOf) == Stored(n, ids, position).options
  {
    var options := Stored(n, ids, position).options;
    SortIsCanonical(options, rows, PositionOf);
    SortOfSorted(options, PositionOf);
  }

  /** Loading back what was stored gives the author's form, whatever order the option rows come in. */
  lemma StoredRoundTrip(n: NewQuestion, ids: FreshIds, position: int, rows: seq<Choice>)
    requires UsableFor(ids, n)
    requires multiset(rows) == multiset(Stored(n, ids, position).options)
    ensures AsNew(Stored(n, ids, position).(options := rows)) == n
  {
    StoredRowsSortBack(n, ids, position, rows);
    assert AsNew(Stored(n, ids, position).(options := rows)).options == n.options;
  }

  lemma BankRowsSortBack(n: NewQuestion, category: string, rows: seq<BankOption>)
    requires multiset(rows) == multiset(Banked(n, category).options)
    ensures SortBy(rows, BankPositionOf) == Banked(n, category).options
  {
    var options := Banked(n, category).options;
    SortIsCanonical(options, rows, BankPositionOf);
    SortOfSorted(options, BankPositionOf);
  }

  /** A banked question is filed under the category asked for. */
  lemma TheCategoryIsKept(n: NewQuestion, category: string)
    ensures Banked(n, category).category == category
  {
  }

  lemma BankRoundTrip(n: NewQuestion, category: string, rows: seq<BankOption>)
    requires multiset(rows) == multiset(Banked(n, category).options)
    ensures BankAsNew(Banked(n, category).(options := rows)) == n
  {
    BankRowsSortBack(n, category, rows);
    assert BankAsNew(Banked(n, category).(options := rows)).options == n.options;
  }

  /** A question that passed validation when it was written passes again when it is copied out of the bank. */
  lemma CopyStillValidates(rt: Runtime, n: NewQuestion, ids: FreshIds, position: int, category: string)
    requires Valid(rt, n) && UsableFor(ids, n)
    ensures Valid(rt, BankAsNew(Banked(AsNew(Stored(n, ids, position)), category)))
  {
    var q := Stored(n, ids, position);
    StoredRoundTrip(n, ids, position, q.options);
    BankRoundTrip(n, category, Banked(n, category).options);
  }

  // ---- Grading through a renaming ----

  ghost predicate Injective(f: Id -> Id) {
    forall a, b :: f(a) == f(b) ==> a == b
  }

  function RenamePairs(pairs: map<Id, Id>, f: Id -> Id, g: Id -> Id): map<Id, Id>
    requires Injective(f)
  {
    map a | a in pairs :: f(a) := g(pairs[a])
  }

  /** The same answer, given to the copy: option ids through `f`, match ids through `g`. */
  function Rename(r: Response, f: Id -> Id, g: Id -> Id): Response
    requires Injective(f)
  {
    r.(choices := Each(r.choices, f), order := Each(r.order, f), pairs := RenamePairs(r.pairs, f, g))
  }

  /** Questions are loaded with their options in position order, and positions are unique in a question. */
  ghost predicate Loaded(q: Question) {
    SortedBy(q.options, PositionOf) && DistinctKeys(q.options, PositionOf)
  }

  /** `copy` is `q` with its option ids sent through `f` and its match ids through `g`. */
  ghost predicate IsCopy(q: Question, copy: Question, f: Id -> Id, g: Id -> Id) {
    && (copy.kind, copy.points, copy.caseSensitive, copy.accepted, copy.spec) ==
       (q.kind, q.points, q.caseSensitive, q.accepted, q.spec)
    && |copy.options| == |q.options|
    && forall i :: 0 <= i < |q.options| ==>
      && copy.options[i].id == f(q.options[i].id)
      && copy.options[i].matchId == g(q.options[i].matchId)
      && copy.options[i].isCorrect == q.options[i].isCorrect
  }

  lemma {:induction false} CorrectIdsRenamed(options: seq<Choice>, copies: seq<Choice>, f: Id -> Id)
    requires |copies| == |options|
    requires forall i :: 0 <= i < |options| ==>
      copies[i].id == f(options[i].id) && copies[i].isCorrect == options[i].isCorrect
    ensures CorrectIds(copies) == Each(CorrectIds(options), f)
  {
    if options != [] {
      CorrectIdsRenamed(options[..|options| - 1], copies[..|options| - 1], f);
    }
  }

  lemma RenamedElements(a: seq<Id>, b: seq<Id>, f: Id -> Id)
    requires Injective(f)
    ensures Elements(Each(a, f)) == Elements(Each(b, f)) <==> Elements(a) == Elements(b)
  {
    forall s: seq<Id>, x | x in s ensures f(x) in Elements(Each(s, f)) {
      var i :| 0 <= i < |s| && s[i] == x;
      assert Each(s, f)[i] == f(x);
    }
    forall s: seq<Id>, x | f(x) in Elements(Each(s, f)) ensures x in s {
      var i :| 0 <= i < |s| && Each(s, f)[i] == f(x);
    }
    if Elements(Each(a, f)) == Elements(Each(b, f)) {
      forall x ensures x in a <==> x in b {
        assert f(x) in Elements(Each(a, f)) <==> f(x) in Elements(Each(b, f));
      }
    } else if Elements(a) == Elements(b) {
      forall y ensures y in Elements(Each(a, f)) <==> y in Elements(Each(b, f)) {
        if y in Each(a, f) {
          var i :| 0 <= i < |a| && Each(a, f)[i] == y;
          assert a[i] in Elements(a);
        }
        if y in Each(b, f) {
          var i :| 0 <= i < |b| && Each(b, f)[i] == y;
          assert b[i] in Elements(b);
        }
      }
    }
  }

  lemma {:induction false} RenamedSetSize(s: set<Id>, f: Id -> Id)
    requires Injective(f)
    ensures |set x | x in s :: f(x)| == |s|
    decreases |s|
  {
    if s != {} {
      var x :| x in s;
      RenamedSetSize(s - {x}, f);
      assert (set y | y in s :: f(y)) == (set y | y in s - {x} :: f(y)) + {f(x)};
      assert f(x) !in (set y | y in s - {x} :: f(y));
    }
  }

  lemma RenamedPairsSize(pairs: map<Id, Id>, f: Id -> Id, g: Id -> Id)
    requires Injective(f)
    ensures |RenamePairs(pairs, f, g)| == |pairs|
  {
    RenamedSetSize(pairs.Keys, f);
    assert RenamePairs(pairs, f, g).Keys == set x | x in pairs.Keys :: f(x);
  }

  lemma RenamedLookup(pairs: map<Id, Id>, f: Id -> Id, g: Id -> Id, id: Id)
    requires Injective(f) && g(NIL) == NIL
    ensures Lookup(RenamePairs(pairs, f, g), f(id)) == g(Lookup(pairs, id))
  {
    assert f(id) in RenamePairs(pairs, f, g) <==> id in pairs;
  }

  lemma CopyPairsTheSame(o: Choice, copy: Choice, pairs: map<Id, Id>, f: Id -> Id, g: Id -> Id)
    requires copy.id == f(o.id) && copy.matchId == g(o.matchId)
    requires Injective(f) && Injective(g) && g(NIL) == NIL
    ensures Lookup(RenamePairs(pairs, f, g), copy.id) == copy.matchId <==> Lookup(pairs, o.id) == o.matchId
  {
    RenamedLookup(pairs, f, g, o.id);
  }

  lemma CopyMatchesTheSame(q: Question, copy: Question, pairs: map<Id, Id>, f: Id -> Id, g: Id -> Id)
    requires IsCopy(q, copy, f, g) && Injective(f) && Injective(g) && g(NIL) == NIL
    ensures MatchingRight(copy, RenamePairs(pairs, f, g)) == MatchingRight(q, pairs)
  {
    RenamedPairsSize(pairs, f, g);
    var renamed := RenamePairs(pairs, f, g);
    forall i | 0 <= i < |q.options|
      ensures Lookup(renamed, copy.options[i].id) == copy.options[i].matchId <==>
              Lookup(pairs, q.options[i].id) == q.options[i].matchId
    {
      CopyPairsTheSame(q.options[i], copy.options[i], pairs, f, g);
    }
  }

  lemma CopyOrdersTheSame(q: Question, copy: Question, order: seq<Id>, f: Id -> Id, g: Id -> Id)
    requires Loaded(q) && Loaded(copy) && IsCopy(q, copy, f, g) && Injective(f)
    ensures OrderingRight(copy, Each(order, f)) == OrderingRight(q, order)
  {
    SortOfSorted(q.options, PositionOf);
    SortOfSorted(copy.options, PositionOf);
    assert Ids(copy.options) == Each(Ids(q.options), f);
    if Each(order, f) == Each(Ids(q.options), f) {
      forall i | 0 <= i < |order| ensures order[i] == Ids(q.options)[i] {
        assert Each(order, f)[i] == Each(Ids(q.options), f)[i];
      }
    }
  }

  lemma CopyChoosesTheSame(q: Question, copy: Question, choices: seq<Id>, f: Id -> Id, g: Id -> Id)
    requires IsCopy(q, copy, f, g) && Injective(f)
    ensures SingleChoiceRight(copy, Each(choices, f)) == SingleChoiceRight(q, choices)
    ensures MultipleChoiceRight(copy, Each(choices, f)) == MultipleChoiceRight(q, choices)
  {
    CorrectIdsRenamed(q.options, copy.options, f);
    RenamedElements(choices, CorrectIds(q.options), f);
  }

  /** Every response to the original gets the verdict its renamed response gets on the copy. */
  lemma CopyGradesTheSame(rt: Runtime, q: Question, copy: Question, r: Response, f: Id -> Id, g: Id -> Id)
    requires Loaded(q) && Loaded(copy) && IsCopy(q, copy, f, g)
    requires Injective(f) && Injective(g) && g(NIL) == NIL
    ensures Grade(rt, copy, Rename(r, f, g)) == Grade(rt, q, r)
  {
    match q.kind
    case TrueFalse | SingleChoice | ImageAnswering | MultipleChoice => CopyChoosesTheSame(q, copy, r.choices, f, g);
    case Ordering | Puzzle => CopyOrdersTheSame(q, copy, r.order, f, g);
    case Matching | ImageMatching => CopyMatchesTheSame(q, copy, r.pairs, f, g);
    case _ =>
  }

  // ---- The whole trip: quiz to bank to quiz ----

  /** Exchange `from[i]` with `to[i]` and leave every other id alone. */
  ghost function Swap(from: seq<Id>, to: seq<Id>, id: Id): Id
    requires |from| == |to|
  {
    if id in from then var i :| 0 <= i < |from| && from[i] == id; to[i]
    else if id in to then var i :| 0 <= i < |to| && to[i] == id; from[i]
    else id
  }

  ghost predicate Unrelated(from: seq<Id>, to: seq<Id>) {
    && |from| == |to| && Distinct(from) && Distinct(to)
    && forall id :: id in from ==> id !in to
  }

  lemma SwapTwice(from: seq<Id>, to: seq<Id>, id: Id)
    requires Unrelated(from, to)
    ensures Swap(from, to, Swap(from, to, id)) == id
    ensures forall i :: 0 <= i < |from| ==> Swap(from, to, from[i]) == to[i]
  {
  }

  lemma SwapIsInjective(from: seq<Id>, to: seq<Id>)
    requires Unrelated(from, to)
    ensures Injective((id: Id) => Swap(from, to, id))
  {
    forall a, b | Swap(from, to, a) == Swap(from, to, b) ensures a == b {
      SwapTwice(from, to, a);
      SwapTwice(from, to, b);
    }
  }

  function MatchIds(options: seq<Choice>): (ids: seq<Id>)
    ensures |ids| == |options| && forall i :: 0 <= i < |ids| ==> ids[i] == options[i].matchId
  {
    seq(|options|, i requires 0 <= i < |options| => options[i].matchId)
  }

  lemma StoredSwapsIds(q: Question, ids: FreshIds, position: int)
    requires Unrelated(Ids(q.options), ids.options) && Unrelated(MatchIds(q.options), ids.matches)
    requires SortBy(q.options, PositionOf) == q.options
    ensures var copy := Stored(AsNew(q), ids, position);
            && |copy.options| == |q.options|
            && forall i :: 0 <= i < |q.options| ==>
                 && copy.options[i].id == Swap(Ids(q.options), ids.options, q.options[i].id)
                 && copy.options[i].matchId == Swap(MatchIds(q.options), ids.matches, q.options[i].matchId)
  {
    forall i | 0 <= i < |q.options|
      ensures Swap(Ids(q.options), ids.options, Ids(q.options)[i]) == ids.options[i]
      ensures Swap(MatchIds(q.options), ids.matches, MatchIds(q.options)[i]) == ids.matches[i]
    {
      SwapTwice(Ids(q.options), ids.options, Ids(q.options)[i]);
      SwapTwice(MatchIds(q.options), ids.matches, MatchIds(q.options)[i]);
    }
  }

  /** Each option id exchanged with the copy's, and each match id likewise. */
  ghost function OptionSwap(q: Question, ids: FreshIds): Id -> Id
    requires |ids.options| == |q.options|
  {
    (id: Id) => Swap(Ids(q.options), ids.options, id)
  }

  ghost function MatchSwap(q: Question, ids: FreshIds): Id -> Id
    requires |ids.matches| == |q.options|
  {
    (id: Id) => Swap(MatchIds(q.options), ids.matches, id)
  }

  lemma SwapsRename(q: Question, ids: FreshIds, position: int)
    requires Unrelated(Ids(q.options), ids.options) && Unrelated(MatchIds(q.options), ids.matches)
    requires NIL !in MatchIds(q.options) && NIL !in ids.matches
    requires SortBy(q.options, PositionOf) == q.options
    ensures Injective(OptionSwap(q, ids)) && Injective(MatchSwap(q, ids)) && MatchSwap(q, ids)(NIL) == NIL
    ensures IsCopy(q, Stored(AsNew(q), ids, position), OptionSwap(q, ids), MatchSwap(q, ids))
  {
    SwapIsInjective(Ids(q.options), ids.options);
    SwapIsInjective(MatchIds(q.options), ids.matches);
    StoredSwapsIds(q, ids, position);
  }

  /**
   A question saved to the bank and added back to a quiz under fresh ids grades every response as before,
   once the response names the copy's options and matches instead of the original's.
   */
  lemma BankCopyGradesTheSame(rt: Runtime, q: Question, category: string, ids: FreshIds, position: int, r: Response)
    requires Loaded(q)
    requires Unrelated(Ids(q.options), ids.options) && Unrelated(MatchIds(q.options), ids.matches)
    requires NIL !in MatchIds(q.options) && NIL !in ids.matches
    ensures Injective(OptionSwap(q, ids))
    ensures var copy := Stored(BankAsNew(Banked(AsNew(q), category)), ids, position);
            Grade(rt, copy, Rename(r, OptionSwap(q, ids), MatchSwap(q, ids))) == Grade(rt, q, r)
  {
    BankRoundTrip(AsNew(q), category, Banked(AsNew(q), category).options);
    SortOfSorted(q.options, PositionOf);
    SwapsRename(q, ids, position);
    CopyGradesTheSame(rt, q, Stored(AsNew(q), ids, position), r, OptionSwap(q, ids), MatchSwap(q, ids));
  }
}
