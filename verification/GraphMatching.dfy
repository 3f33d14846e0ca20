/**
 Grading a plotted graph: every expected point must be hit, once, within the tolerance.

 Grading is greedy: expectations are served in the author's order, each by the first plotted
 point that is near enough and not yet spent. Whether the two point lists can be paired off at all
 is a matching question, so the theorems here say how the greedy answer relates to the best one.
 */
module GraphMatching {
  import opened Prelude
  import opened Quiz

  function Abs(r: real): real {
    if r < 0.0 then -r else r
  }

  predicate Near(got: Point, want: Point, tol: real) {
    Abs(got.x - want.x) <= tol && Abs(got.y - want.y) <= tol
  }

  /** `m` sends each expectation to a plotted point of its own, within the tolerance. */
  ghost predicate IsMatching(m: seq<nat>, expected: seq<Point>, plotted: seq<Point>, tol: real) {
    && |m| == |expected|
    && Distinct(m)
    && forall k :: 0 <= k < |m| ==> m[k] < |plotted| && Near(plotted[m[k]], expected[k], tol)
  }

  /** The two lists pair off with nothing left over. */
  ghost predicate PairsOff(expected: seq<Point>, plotted: seq<Point>, tol: real) {
    |expected| == |plotted| && exists m :: IsMatching(m, expected, plotted, tol)
  }

  /** The plotted points near enough to serve one expectation. */
  ghost function Neighbours(want: Point, plotted: seq<Point>, tol: real): set<nat> {
    set i | 0 <= i < |plotted| && Near(plotted[i], want, tol)
  }

  // ---- The greedy rule ----

  function FirstFree(want: Point, plotted: seq<Point>, tol: real, spent: set<nat>, from: nat): (r: Option<nat>)
    requires from <= |plotted|
    ensures r.Some? ==> from <= r.value < |plotted| && r.value !in spent && Near(plotted[r.value], want, tol)
    ensures r.Some? ==> forall i :: from <= i < r.value ==> i in spent || !Near(plotted[i], want, tol)
    ensures r.None? ==> forall i :: from <= i < |plotted| ==> i in spent || !Near(plotted[i], want, tol)
    decreases |plotted| - from
  {
    if from == |plotted| then None
    else if from !in spent && Near(plotted[from], want, tol) then Some(from)
    else FirstFree(want, plotted, tol, spent, from + 1)
  }

  /** Serving the expectations from the k-th on succeeds when `spent` is already used up. */
  predicate GreedyFrom(expected: seq<Point>, plotted: seq<Point>, tol: real, k: nat, spent: set<nat>)
    requires k <= |expected|
    decreases |expected| - k
  {
    k == |expected| ||
    var pick := FirstFree(expected[k], plotted, tol, spent, 0);
    pick.Some? && GreedyFrom(expected, plotted, tol, k + 1, spent + {pick.value})
  }

  predicate GraphVerdict(spec: Option<Spec>, plotted: seq<Point>) {
    && spec.Some?
    && |spec.value.points| != 0
    && |plotted| == |spec.value.points|
    && GreedyFrom(spec.value.points, plotted, spec.value.tolerance, 0, {})
  }

  ghost function Marked(flags: seq<bool>): set<nat> {
    set i | 0 <= i < |flags| && flags[i]
  }

  method GradeGraph(spec: Option<Spec>, plotted: seq<Point>) returns (ok: bool)
    ensures ok == GraphVerdict(spec, plotted)
  {
    if spec.None? || |spec.value.points| == 0 || |plotted| != |spec.value.points| {
      return false;
    }
    var tol := spec.value.tolerance;
    var expected := spec.value.points;
    var spent := new bool[|plotted|](_ => false);
    assert Marked(spent[..]) == {};
    var k := 0;
    while k < |expected|
      invariant 0 <= k <= |expected|
      invariant GreedyFrom(expected, plotted, tol, 0, {}) ==
                GreedyFrom(expected, plotted, tol, k, Marked(spent[..]))
    {
      var matched := ServeExpectation(expected[k], plotted, tol, spent);
      if !matched {
        return false;
      }
      k := k + 1;
    }
    return true;
  }

  /** The inner scan: spend the first plotted point that serves `want`. */
  method ServeExpectation(want: Point, plotted: seq<Point>, tol: real, spent: array<bool>) returns (matched: bool)
    requires spent.Length == |plotted|
    modifies spent
    ensures matched == FirstFree(want, plotted, tol, old(Marked(spent[..])), 0).Some?
    ensures matched ==>
      Marked(spent[..]) == old(Marked(spent[..])) + {FirstFree(want, plotted, tol, old(Marked(spent[..])), 0).value}
    ensures !matched ==> spent[..] == old(spent[..])
  {
    ghost var before := spent[..];
    var i := 0;
    while i < |plotted|
      invariant 0 <= i <= |plotted|
      invariant spent[..] == before
      invariant FirstFree(want, plotted, tol, Marked(before), 0) == FirstFree(want, plotted, tol, Marked(before), i)
    {
      if !spent[i] && Abs(plotted[i].x - want.x) <= tol && Abs(plotted[i].y - want.y) <= tol {
        spent[i] := true;
        assert spent[..] == before[i := true];
        assert Marked(before[i := true]) == Marked(before) + {i};
        return true;
      }
      i := i + 1;
    }
    return false;
  }

  // ---- Soundness: whatever is accepted really pairs off ----

  lemma {:induction false} GreedyFindsMatching(expected: seq<Point>, plotted: seq<Point>, tol: real, k: nat,
                                               picks: seq<nat>)
    returns (m: seq<nat>)
    requires k == |picks| <= |expected|
    requires IsMatching(picks, expected[..k], plotted, tol)
    requires GreedyFrom(expected, plotted, tol, k, Elements(picks))
    ensures IsMatching(m, expected, plotted, tol)
    decreases |expected| - k
  {
    if k == |expected| {
      assert expected[..k] == expected;
      m := picks;
    } else {
      var pick := FirstFree(expected[k], plotted, tol, Elements(picks), 0).value;
      assert Elements(picks + [pick]) == Elements(picks) + {pick};
      m := GreedyFindsMatching(expected, plotted, tol, k + 1, picks + [pick]);
    }
  }

  /** Acceptance yields a bijection between expected and plotted points, each pair within tolerance. */
  lemma GraphVerdictIsSound(spec: Option<Spec>, plotted: seq<Point>)
    requires GraphVerdict(spec, plotted)
    ensures PairsOff(spec.value.points, plotted, spec.value.tolerance)
  {
    assert Elements<nat>([]) == {};
    var m := GreedyFindsMatching(spec.value.points, plotted, spec.value.tolerance, 0, []);
  }

  // ---- Completeness for one response ----

  /** Any two expectations are served by the same plotted points or by none in common. */
  ghost predicate EqualOrDisjoint(expected: seq<Point>, plotted: seq<Point>, tol: real) {
    forall a, b :: 0 <= a < b < |expected| ==>
      var na, nb := Neighbours(expected[a], plotted, tol), Neighbours(expected[b], plotted, tol);
      na == nb || na !! nb
  }

  /** Two expectations sharing one near plotted point share them all. */
  lemma SharedNeighbour(expected: seq<Point>, plotted: seq<Point>, tol: real, a: nat, b: nat, i: nat)
    requires a < |expected| && b < |expected|
    requires EqualOrDisjoint(expected, plotted, tol)
    requires i in Neighbours(expected[a], plotted, tol) && i in Neighbours(expected[b], plotted, tol)
    ensures Neighbours(expected[a], plotted, tol) == Neighbours(expected[b], plotted, tol)
  {
    if a < b {
      assert i in Neighbours(expected[a], plotted, tol) * Neighbours(expected[b], plotted, tol);
    } else if b < a {
      assert i in Neighbours(expected[b], plotted, tol) * Neighbours(expected[a], plotted, tol);
    }
  }

  /** The earlier expectations whose pick lies near the k-th one. */
  ghost function Rivals(expected: seq<Point>, plotted: seq<Point>, tol: real, picks: seq<nat>): (r: set<nat>)
    requires |picks| < |expected|
    ensures forall j :: j in r ==> j < |picks|
  {
    set j: nat | 0 <= j < |picks| && picks[j] in Neighbours(expected[|picks|], plotted, tol)
  }

  lemma RivalsShareNeighbours(expected: seq<Point>, plotted: seq<Point>, tol: real, picks: seq<nat>, m: seq<nat>,
                              j: nat)
    requires |picks| < |expected|
    requires IsMatching(picks, expected[..|picks|], plotted, tol)
    requires IsMatching(m, expected, plotted, tol)
    requires EqualOrDisjoint(expected, plotted, tol)
    requires j in Rivals(expected, plotted, tol, picks)
    ensures m[j] in Neighbours(expected[|picks|], plotted, tol)
  {
    assert picks[j] in Neighbours(expected[j], plotted, tol);
    SharedNeighbour(expected, plotted, tol, j, |picks|, picks[j]);
    assert m[j] in Neighbours(expected[j], plotted, tol);
  }

  /** The rivals and the k-th expectation itself claim different neighbours of the k-th. */
  lemma MoreNeighboursThanRivals(expected: seq<Point>, plotted: seq<Point>, tol: real, picks: seq<nat>, m: seq<nat>)
    requires |picks| < |expected|
    requires IsMatching(picks, expected[..|picks|], plotted, tol)
    requires IsMatching(m, expected, plotted, tol)
    requires EqualOrDisjoint(expected, plotted, tol)
    ensures |Rivals(expected, plotted, tol, picks)| < |Neighbours(expected[|picks|], plotted, tol)|
  {
    var near := Neighbours(expected[|picks|], plotted, tol);
    var rivals := Rivals(expected, plotted, tol, picks);
    var claimants := rivals + {|picks|};
    assert m[|picks|] in near;
    forall j | j in rivals ensures m[j] in near {
      RivalsShareNeighbours(expected, plotted, tol, picks, m, j);
    }
    InjectiveImageKeepsSize(m, claimants);
    SubsetIsNoLarger(Image(m, claimants), near);
    assert |claimants| == |rivals| + 1;
  }

  /** The exchange argument: an expectation whose neighbours are all spent would need one more of them. */
  lemma NeverStuck(expected: seq<Point>, plotted: seq<Point>, tol: real, picks: seq<nat>, m: seq<nat>)
    requires |picks| < |expected|
    requires IsMatching(picks, expected[..|picks|], plotted, tol)
    requires IsMatching(m, expected, plotted, tol)
    requires EqualOrDisjoint(expected, plotted, tol)
    ensures !(Neighbours(expected[|picks|], plotted, tol) <= Elements(picks))
  {
    var near := Neighbours(expected[|picks|], plotted, tol);
    var rivals := Rivals(expected, plotted, tol, picks);
    MoreNeighboursThanRivals(expected, plotted, tol, picks, m);
    ImageIsNoLarger(picks, rivals);
    if near <= Elements(picks) {
      forall i | i in near ensures i in Image(picks, rivals) {
        var j: nat :| j < |picks| && picks[j] == i;
        assert j in rivals;
      }
      SubsetIsNoLarger(near, Image(picks, rivals));
    }
  }

  /** While some neighbour is free, the greedy rule finds one and the pairing grows by it. */
  lemma NextPick(expected: seq<Point>, plotted: seq<Point>, tol: real, picks: seq<nat>, free: nat)
    returns (pick: nat)
    requires |picks| < |expected|
    requires IsMatching(picks, expected[..|picks|], plotted, tol)
    requires free in Neighbours(expected[|picks|], plotted, tol) && free !in Elements(picks)
    ensures FirstFree(expected[|picks|], plotted, tol, Elements(picks), 0) == Some(pick)
    ensures IsMatching(picks + [pick], expected[..|picks| + 1], plotted, tol)
    ensures Elements(picks + [pick]) == Elements(picks) + {pick}
  {
    pick := FirstFree(expected[|picks|], plotted, tol, Elements(picks), 0).value;
  }

  lemma {:induction false} GreedyCompletes(expected: seq<Point>, plotted: seq<Point>, tol: real, picks: seq<nat>,
                                           m: seq<nat>)
    requires |picks| <= |expected|
    requires IsMatching(picks, expected[..|picks|], plotted, tol)
    requires IsMatching(m, expected, plotted, tol)
    requires EqualOrDisjoint(expected, plotted, tol)
    ensures GreedyFrom(expected, plotted, tol, |picks|, Elements(picks))
    decreases |expected| - |picks|
  {
    if |picks| < |expected| {
      NeverStuck(expected, plotted, tol, picks, m);
      var free :| free in Neighbours(expected[|picks|], plotted, tol) && free !in Elements(picks);
      var pick := NextPick(expected, plotted, tol, picks, free);
      GreedyCompletes(expected, plotted, tol, picks + [pick], m);
    }
  }

  /** Greedy grading is exact on every response whose neighbourhoods do not partly overlap. */
  lemma GraphVerdictIsExact(spec: Spec, plotted: seq<Point>)
    requires spec.points != []
    requires EqualOrDisjoint(spec.points, plotted, spec.tolerance)
    ensures GraphVerdict(Some(spec), plotted) <==> PairsOff(spec.points, plotted, spec.tolerance)
  {
    if GraphVerdict(Some(spec), plotted) {
      GraphVerdictIsSound(Some(spec), plotted);
    }
    if PairsOff(spec.points, plotted, spec.tolerance) {
      var m :| IsMatching(m, spec.points, plotted, spec.tolerance);
      assert Elements<nat>([]) == {};
      GreedyCompletes(spec.points, plotted, spec.tolerance, [], m);
    }
  }

  // ---- Completeness for every response: a condition on the question alone ----

  predicate Apart(a: Point, b: Point, tol: real) {
    Abs(a.x - b.x) > 2.0 * tol || Abs(a.y - b.y) > 2.0 * tol
  }

  /** Expected points repeat exactly, or stand more than twice the tolerance apart on some axis. */
  predicate Separated(expected: seq<Point>, tol: real) {
    forall a, b :: 0 <= a < b < |expected| ==> expected[a] == expected[b] || Apart(expected[a], expected[b], tol)
  }

  lemma SeparatedNeverPartlyOverlap(expected: seq<Point>, plotted: seq<Point>, tol: real)
    requires Separated(expected, tol)
    ensures EqualOrDisjoint(expected, plotted, tol)
  {
    forall a, b | 0 <= a < b < |expected| && expected[a] != expected[b]
      ensures Neighbours(expected[a], plotted, tol) !! Neighbours(expected[b], plotted, tol)
    {
      forall i | 0 <= i < |plotted|
        ensures !(Near(plotted[i], expected[a], tol) && Near(plotted[i], expected[b], tol))
      {
        assert Apart(expected[a], expected[b], tol);
      }
    }
  }

  /** Two overlapping expectations `i < j`, where nothing after `j` lies near `j`. */
  ghost predicate LastClash(expected: seq<Point>, tol: real, i: nat, j: nat) {
    && i < j < |expected|
    && expected[i] != expected[j] && !Apart(expected[i], expected[j], tol)
    && forall k :: j < k < |expected| ==> !Near(expected[k], expected[j], tol)
  }

  /** Whether `j` overlaps some earlier, different expectation. */
  ghost predicate Clashes(expected: seq<Point>, tol: real, j: nat) {
    j < |expected| && exists i :: 0 <= i < j && expected[i] != expected[j] && !Apart(expected[i], expected[j], tol)
  }

  lemma NearLaterClashes(expected: seq<Point>, tol: real, a: nat, j: nat, k: nat)
    requires tol >= 0.0 && a < j < k < |expected|
    requires expected[a] != expected[j] && !Apart(expected[a], expected[j], tol)
    requires Near(expected[k], expected[j], tol)
    ensures Clashes(expected, tol, k)
  {
    var rival := if expected[j] == expected[k] then a else j;
    assert expected[rival] != expected[k] && !Apart(expected[rival], expected[k], tol);
  }

  lemma {:induction false} FindLastClash(expected: seq<Point>, tol: real, j: nat) returns (a: nat, b: nat)
    requires tol >= 0.0
    requires Clashes(expected, tol, j)
    ensures LastClash(expected, tol, a, b)
    decreases |expected| - j
  {
    if later: nat :| j < later < |expected| && Clashes(expected, tol, later) {
      a, b := FindLastClash(expected, tol, later);
    } else {
      a :| 0 <= a < j && expected[a] != expected[j] && !Apart(expected[a], expected[j], tol);
      b := j;
      forall k | j < k < |expected| ensures !Near(expected[k], expected[j], tol) {
        if Near(expected[k], expected[j], tol) {
          NearLaterClashes(expected, tol, a, j, k);
        }
      }
    }
  }

  /** A point both expectations accept, and one only the first does. */
  lemma ClashPoints(a: Point, b: Point, tol: real) returns (both: Point, firstOnly: Point)
    requires tol >= 0.0 && a != b && !Apart(a, b, tol)
    ensures Near(both, a, tol) && Near(both, b, tol)
    ensures Near(firstOnly, a, tol) && !Near(firstOnly, b, tol)
  {
    both := Point((a.x + b.x) / 2.0, (a.y + b.y) / 2.0);
    if a.x != b.x {
      firstOnly := Point(if a.x > b.x then a.x + tol else a.x - tol, a.y);
    } else {
      firstOnly := Point(a.x, if a.y > b.y then a.y + tol else a.y - tol);
    }
  }

  /** Below the clash every expectation takes the plotted point at its own index. */
  lemma {:induction false} GreedyWalksTheDiagonal(expected: seq<Point>, plotted: seq<Point>, tol: real, k: nat, j: nat)
    requires k <= j <= |expected| == |plotted|
    requires forall i :: 0 <= i < j ==> Near(plotted[i], expected[i], tol)
    ensures GreedyFrom(expected, plotted, tol, k, Below(k)) ==
            GreedyFrom(expected, plotted, tol, j, Below(j))
    decreases j - k
  {
    if k < j {
      var spent := Below(k);
      assert FirstFree(expected[k], plotted, tol, spent, 0) == Some(k);
      assert spent + {k} == Below(k + 1);
      GreedyWalksTheDiagonal(expected, plotted, tol, k + 1, j);
    }
  }

  ghost predicate ClashedAnswer(expected: seq<Point>, plotted: seq<Point>, tol: real, i: nat, j: nat) {
    && LastClash(expected, tol, i, j)
    && |plotted| == |expected|
    && (forall k :: 0 <= k < |expected| && k != i && k != j ==> plotted[k] == expected[k])
    && Near(plotted[i], expected[i], tol) && Near(plotted[i], expected[j], tol)
    && Near(plotted[j], expected[i], tol) && !Near(plotted[j], expected[j], tol)
  }

  lemma ClashedAnswerPairsOff(expected: seq<Point>, plotted: seq<Point>, tol: real, i: nat, j: nat)
    requires tol >= 0.0 && ClashedAnswer(expected, plotted, tol, i, j)
    ensures PairsOff(expected, plotted, tol)
  {
    var m := seq(|expected|, (k: nat) => if k == i then j else if k == j then i else k);
    forall k | 0 <= k < |m| ensures m[k] < |plotted| && Near(plotted[m[k]], expected[k], tol) {
      assert k != i && k != j ==> plotted[k] == expected[k];
    }
    assert IsMatching(m, expected, plotted, tol);
  }

  lemma ClashedAnswerIsRefused(expected: seq<Point>, plotted: seq<Point>, tol: real, i: nat, j: nat)
    requires tol >= 0.0 && ClashedAnswer(expected, plotted, tol, i, j)
    ensures !GreedyFrom(expected, plotted, tol, 0, {})
  {
    GreedyWalksTheDiagonal(expected, plotted, tol, 0, j);
    assert Below(0) == {};
    forall k | j < k < |expected| ensures !Near(plotted[k], expected[j], tol) {
      assert plotted[k] == expected[k];
    }
    assert FirstFree(expected[j], plotted, tol, Below(j), 0).None?;
  }

  /** The learner whose right answer is refused, for any question with overlapping expectations. */
  lemma OverlapRefusesARightAnswer(spec: Spec) returns (plotted: seq<Point>)
    requires spec.tolerance >= 0.0
    requires !Separated(spec.points, spec.tolerance)
    ensures PairsOff(spec.points, plotted, spec.tolerance)
    ensures !GraphVerdict(Some(spec), plotted)
  {
    var expected, tol := spec.points, spec.tolerance;
    var a, b :| 0 <= a < b < |expected| && expected[a] != expected[b] && !Apart(expected[a], expected[b], tol);
    assert Clashes(expected, tol, b);
    var i, j := FindLastClash(expected, tol, b);
    var both, firstOnly := ClashPoints(expected[i], expected[j], tol);
    plotted := expected[i := both][j := firstOnly];
    assert ClashedAnswer(expected, plotted, tol, i, j);
    ClashedAnswerPairsOff(expected, plotted, tol, i, j);
    ClashedAnswerIsRefused(expected, plotted, tol, i, j);
  }

  /** Greedy grading agrees with matching on every response exactly when the expectations are separated. */
  lemma GreedyIsCompleteIffSeparated(spec: Spec)
    requires spec.points != []
    ensures (forall plotted: seq<Point> ::
               GraphVerdict(Some(spec), plotted) <==> PairsOff(spec.points, plotted, spec.tolerance))
            <==> Separated(spec.points, spec.tolerance)
  {
    if Separated(spec.points, spec.tolerance) {
      forall plotted: seq<Point>
        ensures GraphVerdict(Some(spec), plotted) <==> PairsOff(spec.points, plotted, spec.tolerance)
      {
        SeparatedNeverPartlyOverlap(spec.points, plotted, spec.tolerance);
        GraphVerdictIsExact(spec, plotted);
      }
    } else {
      assert spec.tolerance >= 0.0;
      var plotted := OverlapRefusesARightAnswer(spec);
    }
  }

  /** With no tolerance the expectations cannot overlap, and grading is exact on every response. */
  lemma ExactPointsAreGradedExactly(spec: Spec, plotted: seq<Point>)
    requires spec.points != [] && spec.tolerance == 0.0
    ensures GraphVerdict(Some(spec), plotted) <==> PairsOff(spec.points, plotted, 0.0)
  {
    assert Separated(spec.points, spec.tolerance);
    SeparatedNeverPartlyOverlap(spec.points, plotted, spec.tolerance);
    GraphVerdictIsExact(spec, plotted);
  }
}
