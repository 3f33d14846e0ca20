/** The prerequisite graph of one workspace: the reachability check, and why no loop is ever stored. */
module Prerequisites {
  import opened Prelude
  import opened Quiz

  /** `course` requires `needs`. */
  datatype Edge = Edge(course: Id, needs: Id)

  datatype Refusal = NotFound | WouldCycle | Exists

  // ---- Reachability ----

  /** Each course on the path requires the next. */
  ghost predicate IsPath(edges: set<Edge>, p: seq<Id>) {
    p != [] && (|p| > 1 ==> Edge(p[0], p[1]) in edges && IsPath(edges, p[1..]))
  }

  ghost predicate Reaches(edges: set<Edge>, a: Id, b: Id) {
    exists p :: IsPath(edges, p) && p[0] == a && p[|p| - 1] == b
  }

  /** No course requires itself, however indirectly. */
  ghost predicate Acyclic(edges: set<Edge>) {
    forall p :: IsPath(edges, p) && |p| > 1 ==> p[0] != p[|p| - 1]
  }

  lemma ReachesSelf(edges: set<Edge>, a: Id)
    ensures Reaches(edges, a, a)
  {
    assert IsPath(edges, [a]);
  }

  lemma ReachesFirst(edges: set<Edge>, e: Edge, b: Id)
    requires e in edges && Reaches(edges, e.needs, b)
    ensures Reaches(edges, e.course, b)
  {
    var p :| IsPath(edges, p) && p[0] == e.needs && p[|p| - 1] == b;
    var q := [e.course] + p;
    assert q[1..] == p;
    assert IsPath(edges, q) && q[|q| - 1] == b;
  }

  lemma {:induction false} ReachesAlong(edges: set<Edge>, p: seq<Id>, b: Id)
    requires IsPath(edges, p) && Reaches(edges, p[|p| - 1], b)
    ensures Reaches(edges, p[0], b)
  {
    if |p| > 1 {
      ReachesAlong(edges, p[1..], b);
      ReachesFirst(edges, Edge(p[0], p[1]), b);
    }
  }

  lemma ReachesOn(edges: set<Edge>, a: Id, b: Id, c: Id)
    requires Reaches(edges, a, b) && Reaches(edges, b, c)
    ensures Reaches(edges, a, c)
  {
    var p :| IsPath(edges, p) && p[0] == a && p[|p| - 1] == b;
    ReachesAlong(edges, p, c);
  }

  lemma {:induction false} PathInMore(edges: set<Edge>, more: set<Edge>, p: seq<Id>)
    requires edges <= more && IsPath(edges, p)
    ensures IsPath(more, p)
  {
    if |p| > 1 {
      PathInMore(edges, more, p[1..]);
    }
  }

  lemma ReachesInMore(edges: set<Edge>, more: set<Edge>, a: Id, b: Id)
    requires edges <= more && Reaches(edges, a, b)
    ensures Reaches(more, a, b)
  {
    var p :| IsPath(edges, p) && p[0] == a && p[|p| - 1] == b;
    PathInMore(edges, more, p);
  }

  lemma {:induction false} PathThroughNewEdge(edges: set<Edge>, e: Edge, p: seq<Id>)
    requires IsPath(edges + {e}, p)
    ensures Reaches(edges, p[0], p[|p| - 1]) ||
            (Reaches(edges, p[0], e.course) && Reaches(edges, e.needs, p[|p| - 1]))
  {
    if |p| == 1 {
      ReachesSelf(edges, p[0]);
    } else {
      PathThroughNewEdge(edges, e, p[1..]);
      if Edge(p[0], p[1]) in edges {
        if Reaches(edges, p[1], p[|p| - 1]) {
          ReachesFirst(edges, Edge(p[0], p[1]), p[|p| - 1]);
        } else {
          ReachesFirst(edges, Edge(p[0], p[1]), e.course);
        }
      } else {
        ReachesSelf(edges, p[0]);
      }
    }
  }

  /** A new edge opens exactly the ways that pass through it. */
  lemma NewEdgeReach(edges: set<Edge>, e: Edge, a: Id, b: Id)
    ensures Reaches(edges + {e}, a, b) <==>
            Reaches(edges, a, b) || (Reaches(edges, a, e.course) && Reaches(edges, e.needs, b))
  {
    var more := edges + {e};
    if Reaches(more, a, b) {
      var p :| IsPath(more, p) && p[0] == a && p[|p| - 1] == b;
      PathThroughNewEdge(edges, e, p);
    }
    if Reaches(edges, a, b) {
      ReachesInMore(edges, more, a, b);
    }
    if Reaches(edges, a, e.course) && Reaches(edges, e.needs, b) {
      ReachesInMore(edges, more, a, e.course);
      ReachesInMore(edges, more, e.needs, b);
      ReachesFirst(more, e, b);
      ReachesOn(more, a, e.course, b);
    }
  }

  // ---- Cycles ----

  /** A loop is an edge one can get back from. */
  ghost predicate NoWayBack(edges: set<Edge>) {
    forall e :: e in edges ==> !Reaches(edges, e.needs, e.course)
  }

  lemma AcyclicIffNoWayBack(edges: set<Edge>)
    ensures Acyclic(edges) <==> NoWayBack(edges)
  {
    if Acyclic(edges) {
      forall e | e in edges ensures !Reaches(edges, e.needs, e.course) {
        forall p | IsPath(edges, p) && p[0] == e.needs ensures p[|p| - 1] != e.course {
          var q := [e.course] + p;
          assert q[1..] == p;
          assert IsPath(edges, q);
        }
      }
    }
    if NoWayBack(edges) {
      forall p | IsPath(edges, p) && |p| > 1 ensures p[0] != p[|p| - 1] {
        assert IsPath(edges, p[1..]) && p[1..][0] == p[1] && p[1..][|p| - 2] == p[|p| - 1];
        assert Edge(p[0], p[1]) in edges;
      }
    }
  }

  /** An edge closes a loop exactly when the course can already be reached from what it would require. */
  lemma EdgeClosesALoopIff(edges: set<Edge>, e: Edge)
    requires Acyclic(edges)
    ensures Acyclic(edges + {e}) <==> !Reaches(edges, e.needs, e.course)
  {
    var more := edges + {e};
    AcyclicIffNoWayBack(edges);
    AcyclicIffNoWayBack(more);
    NewEdgeReach(edges, e, e.needs, e.course);
    if !Reaches(edges, e.needs, e.course) {
      forall x | x in more ensures !Reaches(more, x.needs, x.course) {
        NewEdgeReach(edges, e, x.needs, x.course);
        if x in edges && Reaches(edges, x.needs, e.course) && Reaches(edges, e.needs, x.course) {
          ReachesFirst(edges, x, e.course);
          ReachesOn(edges, e.needs, x.course, e.course);
        }
      }
    }
  }

  lemma FewerEdgesStayAcyclic(edges: set<Edge>, fewer: set<Edge>)
    requires Acyclic(edges) && fewer <= edges
    ensures Acyclic(fewer)
  {
    forall p | IsPath(fewer, p) && |p| > 1 ensures p[0] != p[|p| - 1] {
      PathInMore(fewer, edges, p);
    }
  }

  // ---- Edges checked alone and stored together ----

  /** Each new edge of the chain leads, by edges there before, to where the next one starts. */
  ghost predicate LeadsOn(edges: set<Edge>, c: seq<Edge>) {
    forall i, j :: 0 <= i < j < |c| && j == i + 1 ==> Reaches(edges, c[i].needs, c[j].course)
  }

  ghost predicate IsChain(edges: set<Edge>, added: set<Edge>, c: seq<Edge>) {
    c != [] && (forall i :: 0 <= i < |c| ==> c[i] in added) && LeadsOn(edges, c)
  }

  /** A chain of different edges whose last leads back to where the first starts. */
  ghost predicate IsRing(edges: set<Edge>, added: set<Edge>, c: seq<Edge>) {
    IsChain(edges, added, c) && Distinct(c) && Reaches(edges, c[|c| - 1].needs, c[0].course)
  }

  lemma ChainStarts(edges: set<Edge>, added: set<Edge>, e: Edge, c: seq<Edge>)
    requires e in added && IsChain(edges, added, c) && Reaches(edges, e.needs, c[0].course)
    ensures IsChain(edges, added, [e] + c)
  {
    var longer := [e] + c;
    forall i, j | 0 <= i < j < |longer| && j == i + 1 ensures Reaches(edges, longer[i].needs, longer[j].course) {
      if i > 0 {
        assert longer[i] == c[i - 1] && longer[j] == c[j - 1];
      }
    }
  }

  /** A path over old and new edges is a path over the old ones, or runs along a chain of new ones. */
  lemma {:induction false} PathFollowsAChain(edges: set<Edge>, added: set<Edge>, p: seq<Id>) returns (c: seq<Edge>)
    requires IsPath(edges + added, p)
    ensures c == [] ==> IsPath(edges, p)
    ensures c != [] ==>
      && IsChain(edges, added, c)
      && Reaches(edges, p[0], c[0].course) && Reaches(edges, c[|c| - 1].needs, p[|p| - 1])
  {
    c := [];
    if |p| > 1 {
      var rest := PathFollowsAChain(edges, added, p[1..]);
      var e := Edge(p[0], p[1]);
      if e in edges {
        c := rest;
        if c != [] {
          ReachesFirst(edges, e, c[0].course);
        }
      } else {
        ReachesSelf(edges, p[0]);
        c := [e] + rest;
        if rest == [] {
          assert p[1..][0] == p[1] && p[1..][|p| - 2] == p[|p| - 1];
          assert Reaches(edges, e.needs, p[|p| - 1]);
        } else {
          ChainStarts(edges, added, e, rest);
        }
      }
    }
  }

  lemma {:induction false} ChainIsAWay(edges: set<Edge>, added: set<Edge>, c: seq<Edge>)
    requires IsChain(edges, added, c)
    ensures Reaches(edges + added, c[0].course, c[|c| - 1].needs)
  {
    var more := edges + added;
    ReachesSelf(more, c[0].needs);
    if |c| == 1 {
      ReachesFirst(more, c[0], c[0].needs);
    } else {
      var rest := c[1..];
      assert IsChain(edges, added, rest) by {
        forall i, j | 0 <= i < j < |rest| && j == i + 1 ensures Reaches(edges, rest[i].needs, rest[j].course) {
          assert rest[i] == c[i + 1] && rest[j] == c[j + 1];
        }
      }
      ChainIsAWay(edges, added, rest);
      ReachesInMore(edges, more, c[0].needs, c[1].course);
      ReachesOn(more, c[0].needs, c[1].course, c[|c| - 1].needs);
      ReachesFirst(more, c[0], c[|c| - 1].needs);
    }
  }

  /** If an edge comes twice, what lies between is a shorter way round. */
  lemma {:induction false} SomeRingIsSimple(edges: set<Edge>, added: set<Edge>, c: seq<Edge>) returns (r: seq<Edge>)
    requires IsChain(edges, added, c) && Reaches(edges, c[|c| - 1].needs, c[0].course)
    ensures IsRing(edges, added, r)
    decreases |c|
  {
    r := c;
    if !Distinct(c) {
      var i, j :| 0 <= i < j < |c| && c[i] == c[j];
      var part := c[i..j];
      assert IsChain(edges, added, part) by {
        forall k, l | 0 <= k < l < |part| && l == k + 1 ensures Reaches(edges, part[k].needs, part[l].course) {
          assert part[k] == c[i + k] && part[l] == c[i + l];
        }
      }
      var k := j - 1;
      assert part[|part| - 1] == c[k] && Reaches(edges, c[k].needs, c[j].course);
      r := SomeRingIsSimple(edges, added, part);
    }
  }

  lemma WayToTheLast(edges: set<Edge>, added: set<Edge>, c: seq<Edge>)
    requires IsChain(edges, added, c)
    ensures Reaches(edges + added, c[0].course, c[|c| - 1].course)
  {
    var more := edges + added;
    ReachesSelf(more, c[0].course);
    if |c| > 1 {
      var init := c[..|c| - 1];
      ChainIsAWay(edges, added, init);
      var k := |c| - 2;
      var j := k + 1;
      assert Reaches(edges, c[k].needs, c[j].course);
      ReachesInMore(edges, more, c[k].needs, c[j].course);
      ReachesOn(more, c[0].course, c[k].needs, c[j].course);
    }
  }

  lemma RingClosesALoop(edges: set<Edge>, added: set<Edge>, c: seq<Edge>)
    requires IsRing(edges, added, c)
    ensures !Acyclic(edges + added)
  {
    var more := edges + added;
    var first, last := c[0], c[|c| - 1];
    ReachesInMore(edges, more, last.needs, first.course);
    AcyclicIffNoWayBack(more);
    assert last in more;
    WayToTheLast(edges, added, c);
    ReachesOn(more, last.needs, first.course, last.course);
  }

  /**
   Any number of edges checked against the same graph and stored together: they close a loop exactly when some of
   them stand in a ring, each leading by edges there before to where the next one starts. If each was found
   harmless alone the ring takes at least two.
   */
  lemma NewEdgesCloseALoopIff(edges: set<Edge>, added: set<Edge>)
    requires Acyclic(edges)
    ensures !Acyclic(edges + added) <==> exists c :: IsRing(edges, added, c)
    ensures (forall e :: e in added ==> !Reaches(edges, e.needs, e.course)) ==>
      forall c :: IsRing(edges, added, c) ==> |c| >= 2
  {
    if !Acyclic(edges + added) {
      var p :| IsPath(edges + added, p) && |p| > 1 && p[0] == p[|p| - 1];
      var c := PathFollowsAChain(edges, added, p);
      assert c != [];
      ReachesOn(edges, c[|c| - 1].needs, p[0], c[0].course);
      var r := SomeRingIsSimple(edges, added, c);
    }
    if c :| IsRing(edges, added, c) {
      RingClosesALoop(edges, added, c);
    }
  }

  /**
   Two edges each checked before the other was stored: the graph stays free of loops unless each leads to
   the other's start.
   */
  lemma ConcurrentAddsCloseALoopIff(edges: set<Edge>, e: Edge, d: Edge)
    requires Acyclic(edges)
    requires !Reaches(edges, e.needs, e.course) && !Reaches(edges, d.needs, d.course)
    ensures Acyclic(edges + {e} + {d}) <==>
            !(Reaches(edges, e.needs, d.course) && Reaches(edges, d.needs, e.course))
  {
    EdgeClosesALoopIff(edges, e);
    EdgeClosesALoopIff(edges + {e}, d);
    NewEdgeReach(edges, e, d.needs, d.course);
  }

  /** Two authors add opposite edges, each harmless in isolation. */
  lemma OppositeEdgesCloseALoop(a: Id, b: Id)
    requires a != b
    ensures !Reaches({}, b, a) && !Reaches({}, a, b)
    ensures !Acyclic({Edge(a, b)} + {Edge(b, a)})
  {
    assert forall p :: IsPath({}, p) ==> |p| == 1;
    var edges := {Edge(a, b)} + {Edge(b, a)};
    assert [a, b, a][1..] == [b, a] && [b, a][1..] == [a];
    assert IsPath(edges, [a]) && IsPath(edges, [b, a]) && IsPath(edges, [a, b, a]);
  }

  // ---- The recursive query ----

  /**
   The rows the recursive query collects: everything reachable from `start`, found from a work table of
   rows not yet joined. UNION drops what is already there, which is why it ends on a cyclic graph too.
   */
  method Reachable(edges: set<Edge>, start: Id) returns (seen: set<Id>)
    ensures forall x :: x in seen <==> Reaches(edges, start, x)
  {
    seen := {start};
    var work := {start};
    var all := {start} + set e | e in edges :: e.needs;
    ReachesSelf(edges, start);
    while work != {}
      invariant start in seen && work <= seen <= all
      invariant forall x :: x in seen ==> Reaches(edges, start, x)
      invariant forall e :: e in edges && e.course in seen - work ==> e.needs in seen
      decreases all - seen, work
    {
      var id :| id in work;
      var joined := set e | e in edges && e.course == id :: e.needs;
      forall x | x in joined ensures Reaches(edges, start, x) {
        var e :| e in edges && e.course == id && e.needs == x;
        ReachesSelf(edges, x);
        ReachesFirst(edges, e, x);
        ReachesOn(edges, start, id, x);
      }
      ghost var before := seen;
      work := work - {id} + (joined - seen);
      seen := seen + joined;
      if joined <= before {
        assert seen == before;
      }
    }
    ClosedHoldsAllReachable(edges, start, seen);
  }

  lemma {:induction false} ClosedHoldsPath(edges: set<Edge>, seen: set<Id>, p: seq<Id>)
    requires IsPath(edges, p) && p[0] in seen
    requires forall e :: e in edges && e.course in seen ==> e.needs in seen
    ensures p[|p| - 1] in seen
  {
    if |p| > 1 {
      assert Edge(p[0], p[1]).needs in seen;
      ClosedHoldsPath(edges, seen, p[1..]);
    }
  }

  lemma ClosedHoldsAllReachable(edges: set<Edge>, start: Id, seen: set<Id>)
    requires start in seen
    requires forall e :: e in edges && e.course in seen ==> e.needs in seen
    ensures forall x :: Reaches(edges, start, x) ==> x in seen
  {
    forall x | Reaches(edges, start, x) ensures x in seen {
      var p :| IsPath(edges, p) && p[0] == start && p[|p| - 1] == x;
      ClosedHoldsPath(edges, seen, p);
    }
  }

  // ---- Adding and removing ----

  datatype Step = Create(id: Id) | Add(course: Id, needs: Id) | Remove(course: Id, needs: Id)

  datatype Catalogue = Catalogue(courses: set<Id>, edges: set<Edge>)

  /** One serialised operation on the graph, refusals included. */
  ghost function Next(g: Catalogue, step: Step): Catalogue {
    match step
    case Create(id) => g.(courses := g.courses + {id})
    case Add(course, needs) =>
      if course in g.courses && needs in g.courses && course != needs && !Reaches(g.edges, needs, course)
      then g.(edges := g.edges + {Edge(course, needs)})
      else g
    case Remove(course, needs) => g.(edges := g.edges - {Edge(course, needs)})
  }

  class CourseGraph {
    var courses: set<Id>
    var edges: set<Edge>

    /** Every edge joins two courses, and no loop is stored. */
    ghost predicate Valid()
      reads this
    {
      Acyclic(edges) && forall e :: e in edges ==> e.course in courses && e.needs in courses
    }

    ghost function Now(): Catalogue
      reads this
    {
      Catalogue(courses, edges)
    }

    constructor ()
      ensures Valid() && courses == {} && edges == {}
    {
      courses, edges := {}, {};
      new;
      assert forall p :: IsPath({}, p) ==> |p| == 1;
    }

    method CreateCourse(id: Id)
      requires Valid()
      modifies this`courses
      ensures Valid() && courses == old(courses) + {id}
      ensures Now() == Next(old(Now()), Create(id))
    {
      courses := courses + {id};
    }

    /** The edge is stored exactly when both courses exist, it is new, and it closes no loop. */
    method AddPrerequisite(course: Id, needs: Id) returns (r: Result<(), Refusal>)
      requires Valid()
      modifies this`edges
      ensures Valid()
      ensures r.Ok? <==> course in courses && needs in courses && Edge(course, needs) !in old(edges) &&
                         Acyclic(old(edges) + {Edge(course, needs)})
      ensures r == Err(NotFound) <==> course !in courses || needs !in courses
      ensures r == Err(WouldCycle) <==>
        course in courses && needs in courses && !Acyclic(old(edges) + {Edge(course, needs)})
      ensures edges == if r.Ok? then old(edges) + {Edge(course, needs)} else old(edges)
      ensures Now() == Next(old(Now()), Add(course, needs))
    {
      EdgeClosesALoopIff(edges, Edge(course, needs));
      if course !in courses || needs !in courses {
        return Err(NotFound);
      }
      if course == needs {
        ReachesSelf(edges, course);
        return Err(WouldCycle);
      }
      var reachable := Reachable(edges, needs);
      if course in reachable {
        return Err(WouldCycle);
      }
      if Edge(course, needs) in edges {
        assert edges + {Edge(course, needs)} == edges;
        return Err(Exists);
      }
      edges := edges + {Edge(course, needs)};
      return Ok(());
    }

    method RemovePrerequisite(course: Id, needs: Id) returns (r: Result<(), Refusal>)
      requires Valid()
      modifies this`edges
      ensures Valid() && edges == old(edges) - {Edge(course, needs)}
      ensures Now() == Next(old(Now()), Remove(course, needs))
      ensures r == if course in courses && needs in courses && Edge(course, needs) in old(edges) then Ok(())
                   else Err(NotFound)
    {
      FewerEdgesStayAcyclic(edges, edges - {Edge(course, needs)});
      if course !in courses || needs !in courses || Edge(course, needs) !in edges {
        assert edges == edges - {Edge(course, needs)};
        return Err(NotFound);
      }
      edges := edges - {Edge(course, needs)};
      return Ok(());
    }
  }

  // ---- Runs ----

  ghost function After(g: Catalogue, steps: seq<Step>): Catalogue
    decreases |steps|
  {
    if steps == [] then g else After(Next(g, steps[0]), steps[1..])
  }

  lemma {:induction false} RunStaysAcyclic(g: Catalogue, steps: seq<Step>)
    requires Acyclic(g.edges)
    ensures Acyclic(After(g, steps).edges)
    decreases |steps|
  {
    if steps != [] {
      match steps[0] {
        case Create(_) =>
        case Add(course, needs) => EdgeClosesALoopIff(g.edges, Edge(course, needs));
        case Remove(course, needs) => FewerEdgesStayAcyclic(g.edges, g.edges - {Edge(course, needs)});
      }
      RunStaysAcyclic(Next(g, steps[0]), steps[1..]);
    }
  }

  // ---- An order to take them in ----

  /** Nobody is asked to take a course before one it requires. */
  ghost predicate InOrder(edges: set<Edge>, order: seq<Id>) {
    Distinct(order) && forall i, j :: 0 <= i < j < |order| ==> Edge(order[i], order[j]) !in edges
  }

  /** The other courses of the set that `x` leads to. */
  ghost function Beneath(edges: set<Edge>, courses: set<Id>, x: Id): set<Id> {
    set y | y in courses && y != x && Reaches(edges, x, y)
  }

  lemma NextIsLower(edges: set<Edge>, courses: set<Id>, x: Id, y: Id)
    requires Acyclic(edges) && x in courses && y in courses && Edge(x, y) in edges
    ensures |Beneath(edges, courses, y)| < |Beneath(edges, courses, x)|
  {
    AcyclicIffNoWayBack(edges);
    assert !Reaches(edges, Edge(x, y).needs, Edge(x, y).course);
    ReachesSelf(edges, y);
    ReachesFirst(edges, Edge(x, y), y);
    forall z | z in Beneath(edges, courses, y) ensures z in Beneath(edges, courses, x) {
      ReachesFirst(edges, Edge(x, y), z);
    }
    assert y in Beneath(edges, courses, x) && y !in Beneath(edges, courses, y);
    SubsetIsNoLarger(Beneath(edges, courses, y), Beneath(edges, courses, x));
  }

  /** Going from requirement to requirement ends at a course that requires nothing in the set. */
  lemma {:induction false} SomethingComesFirst(edges: set<Edge>, courses: set<Id>, x: Id) returns (first: Id)
    requires Acyclic(edges) && x in courses
    ensures first in courses && forall y :: y in courses ==> Edge(first, y) !in edges
    decreases |Beneath(edges, courses, x)|
  {
    first := x;
    if y :| y in courses && Edge(x, y) in edges {
      NextIsLower(edges, courses, x, y);
      first := SomethingComesFirst(edges, courses, y);
    }
  }

  /** Every set of courses can be taken, one after another, each after all it requires. */
  lemma {:induction false} EverySetCanBeTaken(edges: set<Edge>, courses: set<Id>) returns (order: seq<Id>)
    requires Acyclic(edges)
    ensures Elements(order) == courses && InOrder(edges, order)
    decreases |courses|
  {
    if courses == {} {
      order := [];
    } else {
      var x :| x in courses;
      var first := SomethingComesFirst(edges, courses, x);
      var rest := EverySetCanBeTaken(edges, courses - {first});
      order := [first] + rest;
      assert forall y :: y in rest <==> y in Elements(rest);
    }
  }

  /** After any run of additions and removals, any set of courses has an order they can be taken in. */
  lemma ReachedCoursesCanBeTaken(steps: seq<Step>, courses: set<Id>) returns (order: seq<Id>)
    ensures Elements(order) == courses && InOrder(After(Catalogue({}, {}), steps).edges, order)
  {
    assert forall p :: IsPath({}, p) ==> |p| == 1;
    RunStaysAcyclic(Catalogue({}, {}), steps);
    order := EverySetCanBeTaken(After(Catalogue({}, {}), steps).edges, courses);
  }
}
