/** Exactly which responses are right, type by type, said of the question and the response alone. */
module RightAnswers {
  import opened Prelude
  import opened Quiz
  import opened Text
  import opened GraphMatching
  import opened Grading

  // ---- Typed answers ----

  /** The words of `s`, one space between each. */
  function Spaced(s: string): string {
    Join(Fields(s))
  }

  predicate SameLetters(a: string, b: string, lower: char -> char) {
    |a| == |b| && forall i :: 0 <= i < |a| ==> lower(a[i]) == lower(b[i])
  }

  /** The same words; when case does not matter, the same letters but for case, one space between words. */
  predicate SameText(a: string, b: string, caseSensitive: bool, lower: char -> char) {
    if caseSensitive then Fields(a) == Fields(b) else SameLetters(Spaced(a), Spaced(b), lower)
  }

  /** At least one word, and the text of some accepted spelling. */
  predicate Spells(given: string, accepted: seq<string>, caseSensitive: bool, lower: char -> char) {
    Fields(given) != [] && exists w :: w in accepted && SameText(given, w, caseSensitive, lower)
  }

  lemma EqualFoldedIff(a: string, b: string, lower: char -> char)
    ensures Each(a, lower) == Each(b, lower) <==> SameLetters(a, b, lower)
  {
    if Each(a, lower) == Each(b, lower) {
      forall i | 0 <= i < |a| ensures lower(a[i]) == lower(b[i]) {
        assert Each(a, lower)[i] == Each(b, lower)[i];
      }
    }
  }

  lemma NormalisedAlikeIff(a: string, b: string, caseSensitive: bool, lower: char -> char)
    ensures Normalise(a, caseSensitive, lower) == Normalise(b, caseSensitive, lower) <==>
            SameText(a, b, caseSensitive, lower)
  {
    if caseSensitive {
      SameAnswerIffSameWords(a, b, lower);
    } else {
      EqualFoldedIff(Spaced(a), Spaced(b), lower);
    }
  }

  lemma BlankIsRightIff(rt: Runtime, given: string, accepted: seq<string>, caseSensitive: bool)
    ensures BlankRight(rt, given, accepted, caseSensitive) <==> Spells(given, accepted, caseSensitive, rt.lower)
  {
    NormaliseBlank(given, caseSensitive, rt.lower);
    TrimSpaceBlank(given);
    FieldsBlank(given);
    forall w | w in accepted
      ensures Normalise(given, caseSensitive, rt.lower) == Normalise(w, caseSensitive, rt.lower) <==>
              SameText(given, w, caseSensitive, rt.lower)
    {
      NormalisedAlikeIff(given, w, caseSensitive, rt.lower);
    }
  }

  /** A short answer is right if and only if there is one blank and the text spells it. */
  lemma ShortAnswerIsRightIff(rt: Runtime, q: Question, r: Response)
    requires q.kind == ShortAnswer
    ensures Grade(rt, q, r).correct <==>
            |q.accepted| == 1 && Spells(r.text, q.accepted[0], q.caseSensitive, rt.lower)
  {
    if |q.accepted| == 1 {
      BlankIsRightIff(rt, r.text, q.accepted[0], q.caseSensitive);
      assert [r.text][0] == r.text;
    }
  }

  /** A fill-in is right if and only if there are as many texts as blanks and each spells its own. */
  lemma FillBlanksIsRightIff(rt: Runtime, q: Question, r: Response)
    requires q.kind == FillBlanks
    ensures Grade(rt, q, r).correct <==>
            && q.accepted != [] && |r.blanks| == |q.accepted|
            && forall i :: 0 <= i < |r.blanks| ==> Spells(r.blanks[i], q.accepted[i], q.caseSensitive, rt.lower)
  {
    if |r.blanks| == |q.accepted| {
      forall i | 0 <= i < |r.blanks|
        ensures BlankRight(rt, r.blanks[i], q.accepted[i], q.caseSensitive) <==>
                Spells(r.blanks[i], q.accepted[i], q.caseSensitive, rt.lower)
      {
        BlankIsRightIff(rt, r.blanks[i], q.accepted[i], q.caseSensitive);
      }
    }
  }

  // ---- Folding case word by word ----

  /** As unicode.ToLower does: what is a space stays one, nothing else becomes one, and a plain space is kept. */
  ghost predicate KeepsSpaces(lower: char -> char) {
    lower(' ') == ' ' && forall c {:trigger lower(c)} :: IsSpace(lower(c)) <==> IsSpace(c)
  }

  function Folded(words: seq<string>, lower: char -> char): (r: seq<string>)
    ensures |r| == |words| && forall i :: 0 <= i < |words| ==> r[i] == Each(words[i], lower)
  {
    seq(|words|, i requires 0 <= i < |words| => Each(words[i], lower))
  }

  lemma EachOfSum(a: string, b: string, lower: char -> char)
    ensures Each(a + b, lower) == Each(a, lower) + Each(b, lower)
  {
  }

  lemma {:induction false} FoldingJoined(words: seq<string>, lower: char -> char)
    requires lower(' ') == ' '
    ensures Each(Join(words), lower) == Join(Folded(words, lower))
  {
    if |words| > 1 {
      FoldingJoined(words[1..], lower);
      assert Folded(words, lower)[1..] == Folded(words[1..], lower);
      EachOfSum(words[0] + " ", Join(words[1..]), lower);
      EachOfSum(words[0], " ", lower);
      assert Each(" ", lower) == " ";
    }
  }

  lemma FoldedAreWords(words: seq<string>, lower: char -> char)
    requires AreWords(words) && KeepsSpaces(lower)
    ensures AreWords(Folded(words, lower))
  {
    var folded := Folded(words, lower);
    forall i | 0 <= i < |folded| ensures folded[i] != "" && NoSpace(folded[i]) {
      forall j | 0 <= j < |folded[i]| ensures !IsSpace(folded[i][j]) {
        assert folded[i][j] == lower(words[i][j]);
      }
      assert |folded[i]| == |words[i]|;
    }
  }

  /** Where case does not matter, two texts are the same exactly when their words are, letter by letter but for case. */
  lemma SameTextIsWordByWord(a: string, b: string, lower: char -> char)
    requires KeepsSpaces(lower)
    ensures SameText(a, b, false, lower) <==> Folded(Fields(a), lower) == Folded(Fields(b), lower)
  {
    EqualFoldedIff(Spaced(a), Spaced(b), lower);
    FoldingJoined(Fields(a), lower);
    FoldingJoined(Fields(b), lower);
    FoldedAreWords(Fields(a), lower);
    FoldedAreWords(Fields(b), lower);
    FieldsOfJoin(Folded(Fields(a), lower));
    FieldsOfJoin(Folded(Fields(b), lower));
  }

  // ---- Choices ----

  ghost predicate IsCorrectId(options: seq<Choice>, id: Id) {
    exists o :: o in options && o.isCorrect && o.id == id
  }

  /** The choices are the correct options, every one and no other, whatever their order or repetition. */
  lemma MultipleChoiceIsRightIff(rt: Runtime, q: Question, r: Response)
    requires q.kind == MultipleChoice
    ensures Grade(rt, q, r).correct <==>
            && (exists o :: o in q.options && o.isCorrect)
            && forall id :: id in r.choices <==> IsCorrectId(q.options, id)
  {
    var right := CorrectIds(q.options);
    forall id ensures id in right <==> IsCorrectId(q.options, id) {
      CorrectIdsAre(q.options, id);
    }
    if right != [] {
      assert right[0] in right;
    }
    if o :| o in q.options && o.isCorrect {
      assert IsCorrectId(q.options, o.id);
    }
    if Elements(r.choices) == Elements(right) {
      forall id ensures id in r.choices <==> id in right {
        assert id in Elements(r.choices) <==> id in Elements(right);
      }
    }
  }

  /** The `i`-th option is correct and has this id, and no other option is correct. */
  ghost predicate OnlyCorrectIs(options: seq<Choice>, i: int, id: Id) {
    && 0 <= i < |options| && options[i].id == id
    && forall j :: 0 <= j < |options| ==> (options[j].isCorrect <==> j == i)
  }

  lemma {:induction false} NoneCorrectIff(options: seq<Choice>)
    ensures CorrectIds(options) == [] <==> forall j :: 0 <= j < |options| ==> !options[j].isCorrect
  {
    if options != [] {
      NoneCorrectIff(options[..|options| - 1]);
    }
  }

  lemma OnlyTheLastIff(init: seq<Choice>, last: Choice, id: Id)
    requires last.isCorrect
    ensures (CorrectIds(init) == [] && last.id == id) <==> exists i :: OnlyCorrectIs(init + [last], i, id)
  {
    NoneCorrectIff(init);
    var all := init + [last];
    assert all[|init|] == last;
    if CorrectIds(init) == [] && last.id == id {
      assert OnlyCorrectIs(all, |init|, id);
    }
    if i :| OnlyCorrectIs(all, i, id) {
      assert i == |init|;
      forall j | 0 <= j < |init| ensures !init[j].isCorrect {
        assert all[j] == init[j];
      }
    }
  }

  lemma NotTheLastIff(init: seq<Choice>, last: Choice, id: Id)
    requires !last.isCorrect
    ensures (exists i :: OnlyCorrectIs(init, i, id)) <==> exists i :: OnlyCorrectIs(init + [last], i, id)
  {
    var all := init + [last];
    assert all[|init|] == last;
    if i :| OnlyCorrectIs(init, i, id) {
      assert OnlyCorrectIs(all, i, id);
    }
    if i :| OnlyCorrectIs(all, i, id) {
      forall j | 0 <= j < |init| ensures init[j].isCorrect <==> j == i {
        assert all[j] == init[j];
      }
      assert OnlyCorrectIs(init, i, id);
    }
  }

  lemma {:induction false} OneCorrectIff(options: seq<Choice>, id: Id)
    ensures CorrectIds(options) == [id] <==> exists i :: OnlyCorrectIs(options, i, id)
  {
    if options != [] {
      var init, last := options[..|options| - 1], options[|options| - 1];
      assert options == init + [last];
      OneCorrectIff(init, id);
      if last.isCorrect {
        OnlyTheLastIff(init, last, id);
        assert CorrectIds(options) == CorrectIds(init) + [last.id];
        assert CorrectIds(options) == [id] ==> |CorrectIds(init)| == 0 && CorrectIds(options)[0] == last.id;
      } else {
        NotTheLastIff(init, last, id);
      }
    }
  }

  /** One choice, and it is the one option that is correct. */
  lemma SingleChoiceIsRightIff(rt: Runtime, q: Question, r: Response)
    requires q.kind in {TrueFalse, SingleChoice, ImageAnswering}
    ensures Grade(rt, q, r).correct <==>
            |r.choices| == 1 && exists i :: OnlyCorrectIs(q.options, i, r.choices[0])
  {
    if |r.choices| == 1 {
      OneCorrectIff(q.options, r.choices[0]);
    }
  }

  // ---- Numbers and places ----

  /** A number from the lower bound to the upper, both ends included, where both bounds are numbers. */
  lemma RangeIsRightIff(rt: Runtime, q: Question, r: Response)
    requires q.kind == Range && |q.accepted| == 1 && |q.accepted[0]| == 2
    ensures var lo, hi := rt.parseFloat(TrimSpace(q.accepted[0][0])), rt.parseFloat(TrimSpace(q.accepted[0][1]));
            Grade(rt, q, r).correct <==>
            && r.number.Some? && lo.Some? && hi.Some?
            && !(r.number.value < lo.value) && !(r.number.value > hi.value)
  {
  }

  /** A point beside every region, or no point, is wrong; one in or on the edge of some region is right. */
  lemma PinIsRightIff(rt: Runtime, q: Question, r: Response)
    requires q.kind == Pin
    ensures Grade(rt, q, r).correct <==>
            && r.point.Some? && q.spec.Some?
            && exists reg :: reg in q.spec.value.regions
                 && 0.0 <= r.point.value.x - reg.x <= reg.w && 0.0 <= r.point.value.y - reg.y <= reg.h
  {
    if r.point.Some? && q.spec.Some? {
      forall reg | reg in q.spec.value.regions
        ensures Inside(r.point.value, reg) <==>
                0.0 <= r.point.value.x - reg.x <= reg.w && 0.0 <= r.point.value.y - reg.y <= reg.h
      {
      }
    }
  }

  // ---- What a verdict is worth ----

  /** A right answer earns all the points and a wrong one none; no machine calls a person's question right. */
  lemma RightOrNothing(rt: Runtime, q: Question, r: Response)
    ensures var v := Grade(rt, q, r);
            && v.points == (if v.correct then q.points else 0)
            && v.manual == IsManual(q.kind) && (v.manual || q.kind.Unknown? ==> !v.correct)
  {
  }

  /** A quiz worth nothing is passed by anybody; any other exactly by that share of its points. */
  lemma PassedIff(points: int, maxPoints: int, passingPercent: int)
    ensures Passed(points, maxPoints, passingPercent) <==>
            (maxPoints > 0 ==> points as real / maxPoints as real >= passingPercent as real / 100.0)
  {
    if maxPoints > 0 {
      var share := points as real / maxPoints as real;
      assert share * maxPoints as real == points as real;
      var bar := passingPercent as real / 100.0;
      ShareReachesBar(points, maxPoints, passingPercent, share, bar);
    }
  }

  lemma ShareReachesBar(points: int, maxPoints: int, passingPercent: int, share: real, bar: real)
    requires maxPoints > 0 && share * maxPoints as real == points as real && bar * 100.0 == passingPercent as real
    ensures share >= bar <==> points * 100 >= passingPercent * maxPoints
  {
    var m := maxPoints as real;
    assert (points * 100) as real == share * m * 100.0;
    assert (passingPercent * maxPoints) as real == bar * 100.0 * m;
    assert share * m * 100.0 - bar * 100.0 * m == (share - bar) * (m * 100.0);
    if share >= bar {
      assert (share - bar) * (m * 100.0) >= 0.0;
    } else {
      assert (share - bar) * (m * 100.0) < 0.0;
    }
  }
}
