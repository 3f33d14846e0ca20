/** Positions of topics in a course, lessons in a topic and questions in a quiz: one table, one algorithm. */
module Siblings {
  import opened Prelude
  import opened Quiz

  datatype Row = Row(parent: Id, position: int)

  datatype Refusal = NotFound | IncompleteOrder

  /** The catalog answers an order for a parent without children with "not found"; the quiz engine accepts it. */
  datatype Rules = Catalog | QuizEngine

  function Children(rows: map<Id, Row>, parent: Id): set<Id> {
    set x | x in rows && rows[x].parent == parent
  }

  /** Positions 0 to n - 1, no two alike. */
  ghost predicate Dense(rows: map<Id, Row>, parent: Id) {
    && (forall x :: x in Children(rows, parent) ==> 0 <= rows[x].position < |Children(rows, parent)|)
    && (forall x, y :: x in Children(rows, parent) && y in Children(rows, parent) && x != y ==>
          rows[x].position != rows[y].position)
  }

  ghost predicate AllDense(rows: map<Id, Row>) {
    forall parent :: Dense(rows, parent)
  }

  ghost predicate IsPermutation(order: seq<Id>, ids: set<Id>) {
    Distinct(order) && Elements(order) == ids
  }

  function IndexOf(order: seq<Id>, id: Id): (k: nat)
    requires id in order
    ensures k < |order| && order[k] == id
  {
    if order[0] == id then 0 else 1 + IndexOf(order[1..], id)
  }

  // ---- The steps ----

  function Appended(rows: map<Id, Row>, parent: Id, id: Id): map<Id, Row> {
    rows[id := Row(parent, |Children(rows, parent)|)]
  }

  function Deleted(rows: map<Id, Row>, id: Id): map<Id, Row>
    requires id in rows
  {
    map x | x in rows && x != id ::
      if rows[x].parent == rows[id].parent && rows[x].position > rows[id].position
      then rows[x].(position := rows[x].position - 1)
      else rows[x]
  }

  function Reordered(rows: map<Id, Row>, parent: Id, order: seq<Id>): map<Id, Row> {
    map x | x in rows ::
      if rows[x].parent == parent && x in order then rows[x].(position := IndexOf(order, x)) else rows[x]
  }

  ghost predicate OrderAccepted(rows: map<Id, Row>, parent: Id, order: seq<Id>, rules: Rules) {
    IsPermutation(order, Children(rows, parent)) && (rules == Catalog ==> order != [])
  }

  // ---- The same operations as the statements perform them ----

  class SiblingTable {
    var rows: map<Id, Row>

    constructor ()
      ensures rows == map[]
    {
      rows := map[];
    }

    /** coalesce(max(position) + 1, 0) */
    method NextPosition(parent: Id) returns (next: nat)
      requires Dense(rows, parent)
      ensures next == |Children(rows, parent)|
    {
      next := 0;
      var all := Children(rows, parent);
      var pending := all;
      while pending != {}
        invariant pending <= all
        invariant forall x :: x in all && x !in pending ==> rows[x].position < next
        invariant next <= |all|
        decreases pending
      {
        var x :| x in pending;
        if rows[x].position >= next {
          next := rows[x].position + 1;
        }
        pending := pending - {x};
      }
      BoundedPositionsFit(rows, parent, next);
    }

    method Append(parent: Id, id: Id)
      requires id !in rows && AllDense(rows)
      modifies this
      ensures rows == Appended(old(rows), parent, id) && AllDense(rows)
    {
      AppendKeepsDense(rows, parent, id);
      var next := NextPosition(parent);
      rows := rows[id := Row(parent, next)];
    }

    method Delete(id: Id) returns (r: Result<Id, Refusal>)
      requires AllDense(rows)
      modifies this
      ensures AllDense(rows)
      ensures r == if id in old(rows) then Ok(old(rows)[id].parent) else Err(NotFound)
      ensures rows == if id in old(rows) then Deleted(old(rows), id) else old(rows)
    {
      if id !in rows {
        return Err(NotFound);
      }
      DeleteKeepsDense(rows, id);
      ghost var before := rows;
      var removed := rows[id];
      rows := rows - {id};
      rows := map x | x in rows ::
        if rows[x].parent == removed.parent && rows[x].position > removed.position
        then rows[x].(position := rows[x].position - 1)
        else rows[x];
      assert rows == Deleted(before, id);
      return Ok(removed.parent);
    }

    /** The UPDATE joined to the submitted list, and how many rows it matched. */
    method WritePositions(parent: Id, order: seq<Id>) returns (matched: nat)
      modifies this
      ensures rows == Reordered(old(rows), parent, order)
      ensures matched == |Children(old(rows), parent) * Elements(order)|
    {
      var touched := set x | x in rows && rows[x].parent == parent && x in order;
      assert touched == Children(rows, parent) * Elements(order);
      matched := |touched|;
      rows := map x | x in rows :: if x in touched then rows[x].(position := IndexOf(order, x)) else rows[x];
    }

    /** checkComplete: no id twice, something to order, and as many ids as there are children. */
    method CheckComplete(parent: Id, order: seq<Id>) returns (r: Result<(), Refusal>)
      ensures r.Ok? <==> Distinct(order) && |order| == |Children(rows, parent)| && order != []
      ensures r == Err(NotFound) <==> Distinct(order) && Children(rows, parent) == {}
    {
      var seen: set<Id> := {};
      for i := 0 to |order|
        invariant seen == Elements(order[..i]) && Distinct(order[..i])
      {
        if order[i] in seen {
          var j :| 0 <= j < i && order[..i][j] == order[i];
          assert order[j] == order[i];
          return Err(IncompleteOrder);
        }
        assert order[..i + 1] == order[..i] + [order[i]];
        seen := seen + {order[i]};
      }
      assert order[..|order|] == order;
      var total := |Children(rows, parent)|;
      if total == 0 {
        return Err(NotFound);
      }
      if total != |order| {
        return Err(IncompleteOrder);
      }
      return Ok(());
    }

    /** The quiz engine's check: as many ids as questions, before and after duplicates are dropped. */
    method CountIds(parent: Id, order: seq<Id>) returns (r: Result<(), Refusal>)
      ensures r == if Distinct(order) && |order| == |Children(rows, parent)| then Ok(()) else Err(IncompleteOrder)
    {
      var seen: set<Id> := {};
      for i := 0 to |order|
        invariant seen == Elements(order[..i])
      {
        assert order[..i + 1] == order[..i] + [order[i]];
        seen := seen + {order[i]};
      }
      assert order[..|order|] == order;
      ElementsSize(order);
      var siblings := |Children(rows, parent)|;
      if |order| != siblings || |seen| != siblings {
        return Err(IncompleteOrder);
      }
      return Ok(());
    }

    /** Accepted exactly when the list names every child once; a partial match is rolled back. */
    method Reorder(parent: Id, order: seq<Id>, rules: Rules) returns (r: Result<(), Refusal>)
      requires AllDense(rows)
      modifies this
      ensures AllDense(rows)
      ensures r.Ok? <==> OrderAccepted(old(rows), parent, order, rules)
      ensures rows == if r.Ok? then Reordered(old(rows), parent, order) else old(rows)
    {
      ChecksMeanPermutation(order, Children(rows, parent));
      ReorderKeepsDense(rows, parent, order);
      if rules == Catalog {
        r := CheckComplete(parent, order);
      } else {
        r := CountIds(parent, order);
      }
      if r.Err? {
        return;
      }
      var before := rows;
      var matched := WritePositions(parent, order);
      if matched != |order| {
        rows := before;
        return Err(IncompleteOrder);
      }
    }
  }

  // ---- Pigeonhole ----

  ghost function Positions(rows: map<Id, Row>, ids: set<Id>): set<int>
    requires ids <= rows.Keys
  {
    set x | x in ids :: rows[x].position
  }

  lemma {:induction false} DistinctPositionsCount(rows: map<Id, Row>, ids: set<Id>)
    requires ids <= rows.Keys
    requires forall x, y :: x in ids && y in ids && x != y ==> rows[x].position != rows[y].position
    ensures |Positions(rows, ids)| == |ids|
    decreases |ids|
  {
    if ids != {} {
      var x :| x in ids;
      DistinctPositionsCount(rows, ids - {x});
      assert Positions(rows, ids) == Positions(rows, ids - {x}) + {rows[x].position};
    }
  }

  ghost function UpTo(n: nat): (s: set<int>)
    ensures |s| == n && forall k :: k in s <==> 0 <= k < n
  {
    if n == 0 then {} else UpTo(n - 1) + {n - 1}
  }

  lemma BoundedPositionsFit(rows: map<Id, Row>, parent: Id, next: nat)
    requires Dense(rows, parent)
    requires forall x :: x in Children(rows, parent) ==> rows[x].position < next
    ensures |Children(rows, parent)| <= next
  {
    var ids := Children(rows, parent);
    DistinctPositionsCount(rows, ids);
    SubsetIsNoLarger(Positions(rows, ids), UpTo(next));
  }

  /** Every position below the number of children is some child's. */
  lemma EveryPositionIsTaken(rows: map<Id, Row>, parent: Id, k: nat)
    requires Dense(rows, parent) && k < |Children(rows, parent)|
    ensures exists x :: x in Children(rows, parent) && rows[x].position == k
  {
    var ids := Children(rows, parent);
    DistinctPositionsCount(rows, ids);
    SubsetIsNoLarger(Positions(rows, ids), UpTo(|ids|));
    assert k in Positions(rows, ids);
  }

  /** No duplicate, the right count, and every id matched: together, exactly the permutations. */
  lemma ChecksMeanPermutation(order: seq<Id>, ids: set<Id>)
    ensures IsPermutation(order, ids) <==>
            Distinct(order) && |order| == |ids| && |ids * Elements(order)| == |order|
  {
    ElementsSize(order);
    if IsPermutation(order, ids) {
      assert ids * Elements(order) == ids;
    }
    if Distinct(order) && |order| == |ids| && |ids * Elements(order)| == |order| {
      SubsetIsNoLarger(ids * Elements(order), ids);
      SubsetIsNoLarger(ids * Elements(order), Elements(order));
    }
  }

  // ---- Positions stay dense ----

  lemma AppendKeepsItDense(rows: map<Id, Row>, parent: Id, id: Id)
    requires Dense(rows, parent) && id !in rows
    ensures Dense(Appended(rows, parent, id), parent)
  {
    assert Children(Appended(rows, parent, id), parent) == Children(rows, parent) + {id};
  }

  /** A parent whose children and their positions are untouched. */
  lemma SameChildrenStayDense(rows: map<Id, Row>, after: map<Id, Row>, p: Id)
    requires Dense(rows, p)
    requires forall x :: x in Children(rows, p) ==> x in after && after[x] == rows[x]
    requires forall x :: x in Children(after, p) ==> x in rows && rows[x].parent == p
    ensures Dense(after, p)
  {
    assert Children(after, p) == Children(rows, p);
  }

  lemma AppendKeepsDense(rows: map<Id, Row>, parent: Id, id: Id)
    requires AllDense(rows) && id !in rows
    ensures AllDense(Appended(rows, parent, id))
  {
    var after := Appended(rows, parent, id);
    forall p ensures Dense(after, p) {
      assert Dense(rows, p);
      if p == parent {
        AppendKeepsItDense(rows, parent, id);
      } else {
        SameChildrenStayDense(rows, after, p);
      }
    }
  }

  lemma DeleteKeepsItDense(rows: map<Id, Row>, id: Id)
    requires id in rows && Dense(rows, rows[id].parent)
    ensures Dense(Deleted(rows, id), rows[id].parent)
  {
    var p := rows[id].parent;
    assert id in Children(rows, p);
    assert Children(Deleted(rows, id), p) == Children(rows, p) - {id};
  }

  lemma DeleteKeepsDense(rows: map<Id, Row>, id: Id)
    requires AllDense(rows) && id in rows
    ensures AllDense(Deleted(rows, id))
  {
    var after := Deleted(rows, id);
    forall p ensures Dense(after, p) {
      assert Dense(rows, p);
      if p == rows[id].parent {
        DeleteKeepsItDense(rows, id);
      } else {
        SameChildrenStayDense(rows, after, p);
      }
    }
  }

  lemma ReorderKeepsDense(rows: map<Id, Row>, parent: Id, order: seq<Id>)
    requires AllDense(rows)
    ensures IsPermutation(order, Children(rows, parent)) ==> AllDense(Reordered(rows, parent, order))
  {
    if IsPermutation(order, Children(rows, parent)) {
      var after := Reordered(rows, parent, order);
      ElementsSize(order);
      forall p ensures Dense(after, p) {
        assert Dense(rows, p);
        assert Children(after, p) == Children(rows, p);
        if p == parent {
          forall x | x in Children(after, p) ensures x in order && after[x].position == IndexOf(order, x) {
            assert x in Elements(order);
          }
        }
      }
    }
  }

  // ---- What each operation does to the order ----

  /** What is left stands in the order it stood in. */
  lemma DeleteKeepsTheOrder(rows: map<Id, Row>, id: Id, x: Id, y: Id)
    requires AllDense(rows) && id in rows
    requires x in Deleted(rows, id) && y in Deleted(rows, id) && rows[x].parent == rows[y].parent
    ensures var after := Deleted(rows, id);
            after[x].position < after[y].position <==> rows[x].position < rows[y].position
  {
    assert Dense(rows, rows[id].parent);
    assert x != id && y != id;
    assert id in Children(rows, rows[id].parent);
    if rows[x].parent == rows[id].parent {
      assert x in Children(rows, rows[id].parent) && y in Children(rows, rows[id].parent);
    }
  }

  lemma {:induction false} IndexInDistinct(order: seq<Id>, k: nat)
    requires Distinct(order) && k < |order|
    ensures IndexOf(order, order[k]) == k
  {
    if k > 0 {
      IndexInDistinct(order[1..], k - 1);
    }
  }

  /** After an accepted reorder the child at position k is the k-th of the list. */
  lemma ReorderPutsEachInPlace(rows: map<Id, Row>, parent: Id, order: seq<Id>, k: nat)
    requires IsPermutation(order, Children(rows, parent)) && k < |order|
    ensures order[k] in rows && Reordered(rows, parent, order)[order[k]] == Row(parent, k)
  {
    assert order[k] in Elements(order);
    IndexInDistinct(order, k);
  }

  // ---- Whole runs ----

  datatype Step =
    | Append(parent: Id, id: Id)
    | Delete(id: Id)
    | Reorder(parent: Id, order: seq<Id>, rules: Rules)
    | Cascade(parent: Id)

  /** Deleting a parent takes its children along. */
  ghost function Next(rows: map<Id, Row>, step: Step): map<Id, Row> {
    match step
    case Append(parent, id) => if id in rows then rows else Appended(rows, parent, id)
    case Delete(id) => if id in rows then Deleted(rows, id) else rows
    case Reorder(parent, order, rules) =>
      if OrderAccepted(rows, parent, order, rules) then Reordered(rows, parent, order) else rows
    case Cascade(parent) => rows - Children(rows, parent)
  }

  /** Nothing done to one parent's children moves another's, or gives any row another parent. */
  lemma OtherFamiliesAreUntouched(rows: map<Id, Row>, step: Step, x: Id)
    requires x in rows
    requires match step
             case Append(_, _) => true
             case Delete(id) => id in rows && rows[id].parent != rows[x].parent
             case Reorder(parent, _, _) => parent != rows[x].parent
             case Cascade(parent) => parent != rows[x].parent
    ensures x in Next(rows, step) && Next(rows, step)[x] == rows[x]
  {
  }

  /** A row leaves only when it is deleted or its parent is, and stays under the parent it has. */
  lemma RowsStayUnderTheirParent(rows: map<Id, Row>, step: Step, x: Id)
    requires x in rows
    ensures x !in Next(rows, step) <==> step == Delete(x) || step == Cascade(rows[x].parent)
    ensures x in Next(rows, step) ==> Next(rows, step)[x].parent == rows[x].parent
  {
  }

  ghost function After(rows: map<Id, Row>, steps: seq<Step>): map<Id, Row>
    decreases |steps|
  {
    if steps == [] then rows else After(Next(rows, steps[0]), steps[1..])
  }

  lemma CascadeKeepsDense(rows: map<Id, Row>, parent: Id)
    requires AllDense(rows)
    ensures AllDense(rows - Children(rows, parent))
  {
    var after := rows - Children(rows, parent);
    forall p ensures Dense(after, p) {
      assert Dense(rows, p);
      assert Children(after, p) == if p == parent then {} else Children(rows, p);
    }
  }

  lemma {:induction false} RunStaysDense(rows: map<Id, Row>, steps: seq<Step>)
    requires AllDense(rows)
    ensures AllDense(After(rows, steps))
    decreases |steps|
  {
    if steps != [] {
      match steps[0] {
        case Append(parent, id) =>
          if id !in rows {
            AppendKeepsDense(rows, parent, id);
          }
        case Delete(id) =>
          if id in rows {
            DeleteKeepsDense(rows, id);
          }
        case Reorder(parent, order, _) => ReorderKeepsDense(rows, parent, order);
        case Cascade(parent) => CascadeKeepsDense(rows, parent);
      }
      RunStaysDense(Next(rows, steps[0]), steps[1..]);
    }
  }

  /** In every state any run reaches, each parent's children stand at 0, 1, ..., n - 1 and nowhere else. */
  lemma ReachedPositionsAreExact(steps: seq<Step>, parent: Id, k: int)
    ensures var rows := After(map[], steps);
            (exists x :: x in Children(rows, parent) && rows[x].position == k) <==>
            0 <= k < |Children(rows, parent)|
  {
    assert forall p :: Children(map[], p) == {};
    RunStaysDense(map[], steps);
    var rows := After(map[], steps);
    assert Dense(rows, parent);
    if 0 <= k < |Children(rows, parent)| {
      EveryPositionIsTaken(rows, parent, k);
    }
  }
}
