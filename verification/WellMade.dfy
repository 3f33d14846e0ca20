/** What a saved question is, counted and worded without the validator's own tallies. */
module WellMade {
  import opened Prelude
  import opened Quiz
  import opened Text
  import opened GraphMatching
  import opened Grading
  import opened Authoring

  /** There is a word in it. */
  predicate Says(s: string) {
    Fields(s) != []
  }

  ghost predicate OneIsRight(options: seq<NewOption>) {
    exists i :: OnlyRight(options, i)
  }

  ghost predicate OnlyRight(options: seq<NewOption>, i: int) {
    0 <= i < |options| && forall j :: 0 <= j < |options| ==> (options[j].isCorrect <==> j == i)
  }

  ghost predicate SomeAreRight(options: seq<NewOption>) {
    exists i :: 0 <= i < |options| && options[i].isCorrect
  }

  ghost predicate SomeAreWrong(options: seq<NewOption>) {
    exists i :: 0 <= i < |options| && !options[i].isCorrect
  }

  ghost predicate AllMatched(options: seq<NewOption>) {
    forall i :: 0 <= i < |options| ==> Says(options[i].matchContent)
  }

  ghost predicate NoneMatched(options: seq<NewOption>) {
    forall i :: 0 <= i < |options| ==> !Says(options[i].matchContent)
  }

  /** Every blank has a spelling, and every spelling of it a word. */
  ghost predicate WellSpelt(accepted: seq<seq<string>>) {
    forall i :: 0 <= i < |accepted| ==>
      accepted[i] != [] && forall k :: 0 <= k < |accepted[i]| ==> Says(accepted[i][k])
  }

  ghost predicate BoundsInOrder(rt: Runtime, accepted: seq<seq<string>>) {
    && |accepted| == 1 && |accepted[0]| == 2
    && var lo, hi := rt.parseFloat(TrimSpace(accepted[0][0])), rt.parseFloat(TrimSpace(accepted[0][1]));
       lo.Some? && hi.Some? && lo.value <= hi.value
  }

  ghost predicate HasRegions(spec: Option<Spec>) {
    && spec.Some? && Says(spec.value.image) && spec.value.regions != []
    && forall i :: 0 <= i < |spec.value.regions| ==> spec.value.regions[i].w > 0.0 && spec.value.regions[i].h > 0.0
  }

  /** What the options, the accepted texts and the picture of each type must be, all together. */
  ghost predicate Fits(rt: Runtime, n: NewQuestion) {
    var choices := |n.options|;
    match n.kind
    case TrueFalse =>
      choices == 2 && OneIsRight(n.options) && NoneMatched(n.options) && n.accepted == [] && n.spec.None?
    case SingleChoice | ImageAnswering =>
      choices >= 2 && OneIsRight(n.options) && NoneMatched(n.options) && n.accepted == [] && n.spec.None?
    case MultipleChoice =>
      && choices >= 2 && SomeAreRight(n.options) && SomeAreWrong(n.options)
      && NoneMatched(n.options) && n.accepted == [] && n.spec.None?
    case Ordering | Puzzle =>
      choices >= 2 && !SomeAreRight(n.options) && NoneMatched(n.options) && n.accepted == [] && n.spec.None?
    case Matching | ImageMatching => choices >= 2 && AllMatched(n.options) && n.accepted == [] && n.spec.None?
    case ShortAnswer => |n.accepted| == 1 && WellSpelt(n.accepted) && n.spec.None?
    case FillBlanks => |n.accepted| >= 1 && WellSpelt(n.accepted) && n.spec.None?
    case OpenEnded => n.options == [] && n.accepted == [] && n.spec.None?
    case DrawImage => n.options == [] && n.accepted == []
    case Range => n.options == [] && BoundsInOrder(rt, n.accepted) && n.spec.None?
    case Pin => n.options == [] && n.accepted == [] && HasRegions(n.spec)
    case Graph =>
      n.options == [] && n.accepted == [] && n.spec.Some? && n.spec.value.points != [] && n.spec.value.tolerance >= 0.0
    case Unknown(_) => false
  }

  lemma BlankIff(s: string)
    ensures Blank(s) <==> !Says(s)
  {
    TrimSpaceBlank(s);
    FieldsBlank(s);
  }

  lemma {:induction false} CountedIff(options: seq<NewOption>)
    ensures CountCorrect(options) <= |options|
    ensures CountCorrect(options) == 0 <==> !SomeAreRight(options)
    ensures CountCorrect(options) == |options| <==> !SomeAreWrong(options)
  {
    if options != [] {
      var init, last := options[..|options| - 1], options[|options| - 1];
      CountedIff(init);
      assert options[|options| - 1] == last;
      if i :| 0 <= i < |init| && init[i].isCorrect {
        assert options[i].isCorrect;
      }
      if i :| 0 <= i < |init| && !init[i].isCorrect {
        assert !options[i].isCorrect;
      }
    }
  }

  lemma LastIsOnlyRight(init: seq<NewOption>, last: NewOption)
    requires last.isCorrect
    ensures OneIsRight(init + [last]) <==> !SomeAreRight(init)
  {
    var all := init + [last];
    assert all[|init|] == last;
    if i :| OnlyRight(all, i) {
      assert i == |init|;
      forall j | 0 <= j < |init| ensures !init[j].isCorrect {
        assert all[j] == init[j];
      }
    }
    if !SomeAreRight(init) {
      assert OnlyRight(all, |init|);
    }
  }

  lemma LastIsWrong(init: seq<NewOption>, last: NewOption)
    requires !last.isCorrect
    ensures OneIsRight(init + [last]) <==> OneIsRight(init)
  {
    var all := init + [last];
    assert all[|init|] == last;
    if i :| OnlyRight(all, i) {
      forall j | 0 <= j < |init| ensures init[j].isCorrect <==> j == i {
        assert all[j] == init[j];
      }
      assert OnlyRight(init, i);
    }
    if i :| OnlyRight(init, i) {
      assert OnlyRight(all, i);
    }
  }

  lemma {:induction false} OneCountedIff(options: seq<NewOption>)
    ensures CountCorrect(options) == 1 <==> OneIsRight(options)
  {
    if options != [] {
      var init, last := options[..|options| - 1], options[|options| - 1];
      assert options == init + [last];
      OneCountedIff(init);
      CountedIff(init);
      if last.isCorrect {
        LastIsOnlyRight(init, last);
      } else {
        LastIsWrong(init, last);
      }
    }
  }

  lemma AllMatchedIff(options: seq<NewOption>)
    ensures (forall o :: o in options ==> !Blank(o.matchContent)) <==> AllMatched(options)
  {
    forall i | 0 <= i < |options|
      ensures options[i] in options && (Blank(options[i].matchContent) <==> !Says(options[i].matchContent))
    {
      BlankIff(options[i].matchContent);
    }
  }

  lemma NoneMatchedIff(options: seq<NewOption>)
    ensures (forall o :: o in options ==> Blank(o.matchContent)) <==> NoneMatched(options)
  {
    forall i | 0 <= i < |options|
      ensures options[i] in options && (Blank(options[i].matchContent) <==> !Says(options[i].matchContent))
    {
      BlankIff(options[i].matchContent);
    }
  }

  ghost predicate AllSay(options: seq<NewOption>) {
    forall i :: 0 <= i < |options| ==> Says(options[i].content)
  }

  lemma AllSayIff(options: seq<NewOption>)
    ensures (forall o :: o in options ==> !Blank(o.content)) <==> AllSay(options)
  {
    forall i | 0 <= i < |options|
      ensures options[i] in options && (Blank(options[i].content) <==> !Says(options[i].content))
    {
      BlankIff(options[i].content);
    }
  }

  lemma SpelledIff(accepted: seq<seq<string>>)
    ensures (forall i :: 0 <= i < |accepted| ==> Spelled(accepted[i])) <==> WellSpelt(accepted)
  {
    forall i | 0 <= i < |accepted|
      ensures Spelled(accepted[i]) <==>
              accepted[i] != [] && forall k :: 0 <= k < |accepted[i]| ==> Says(accepted[i][k])
    {
      forall k | 0 <= k < |accepted[i]|
        ensures accepted[i][k] in accepted[i] && (Blank(accepted[i][k]) <==> !Says(accepted[i][k]))
      {
        BlankIff(accepted[i][k]);
      }
    }
  }

  lemma RegionsIff(spec: Option<Spec>)
    ensures HasRegions(spec) <==>
            && spec.Some? && !Blank(spec.value.image) && spec.value.regions != []
            && forall reg :: reg in spec.value.regions ==> reg.w > 0.0 && reg.h > 0.0
  {
    if spec.Some? {
      BlankIff(spec.value.image);
      forall i | 0 <= i < |spec.value.regions| ensures spec.value.regions[i] in spec.value.regions {}
    }
  }

  lemma SingleRulesIff(rt: Runtime, n: NewQuestion)
    requires n.kind in {TrueFalse, SingleChoice, ImageAnswering}
    ensures KindRules(rt, n) && AcceptedRules(n) && SpecRules(n) <==> Fits(rt, n)
  {
    OneCountedIff(n.options);
    NoneMatchedIff(n.options);
  }

  lemma CountRulesIff(rt: Runtime, n: NewQuestion)
    requires n.kind in {MultipleChoice, Ordering, Puzzle}
    ensures KindRules(rt, n) && AcceptedRules(n) && SpecRules(n) <==> Fits(rt, n)
  {
    CountedIff(n.options);
    NoneMatchedIff(n.options);
  }

  lemma PairRulesIff(rt: Runtime, n: NewQuestion)
    requires n.kind in {Matching, ImageMatching}
    ensures KindRules(rt, n) && AcceptedRules(n) && SpecRules(n) <==> Fits(rt, n)
  {
    AllMatchedIff(n.options);
  }

  lemma TypedRulesIff(rt: Runtime, n: NewQuestion)
    requires n.kind in {ShortAnswer, FillBlanks, Range}
    ensures KindRules(rt, n) && AcceptedRules(n) && SpecRules(n) <==> Fits(rt, n)
  {
    SpelledIff(n.accepted);
  }

  lemma DrawnRulesIff(rt: Runtime, n: NewQuestion)
    requires n.kind in {OpenEnded, DrawImage, Pin, Graph}
    ensures KindRules(rt, n) && AcceptedRules(n) && SpecRules(n) <==> Fits(rt, n)
  {
    RegionsIff(n.spec);
  }

  lemma RulesMeanFitting(rt: Runtime, n: NewQuestion)
    ensures KindRules(rt, n) && AcceptedRules(n) && SpecRules(n) <==> Fits(rt, n)
  {
    match n.kind
    case TrueFalse | SingleChoice | ImageAnswering => SingleRulesIff(rt, n);
    case MultipleChoice | Ordering | Puzzle => CountRulesIff(rt, n);
    case Matching | ImageMatching => PairRulesIff(rt, n);
    case ShortAnswer | FillBlanks | Range => TypedRulesIff(rt, n);
    case OpenEnded | DrawImage | Pin | Graph => DrawnRulesIff(rt, n);
    case Unknown(_) =>
  }

  /**
   A question can be saved if and only if it says something, is worth no less than nothing, every option says
   something, and its parts fit its type. The validator's last check, that there is something to answer, never
   refuses anything these do not.
   */
  lemma CanBeSavedIff(rt: Runtime, n: NewQuestion)
    ensures Valid(rt, n) <==> Says(n.prompt) && n.points >= 0 && AllSay(n.options) && Fits(rt, n)
  {
    BlankIff(n.prompt);
    AllSayIff(n.options);
    RulesMeanFitting(rt, n);
  }
}
