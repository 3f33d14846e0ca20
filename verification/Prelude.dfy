/** Small definitions every other module leans on. */
module Prelude {

  datatype Option<+T> = None | Some(value: T)

  datatype Result<+T, +E> = Ok(value: T) | Err(error: E)

  /** Where the job queue has a job: it may still be delivered, it is done with, or it was given up. */
  datatype JobPhase = Queued | Completed | Discarded

  /** No element of `s` appears twice. */
  ghost predicate Distinct<T>(s: seq<T>) {
    forall i, j :: 0 <= i < j < |s| ==> s[i] != s[j]
  }

  /** The elements of `s`, once each. */
  function Elements<T>(s: seq<T>): set<T> {
    set x | x in s
  }

  function Each<T, R>(s: seq<T>, f: T -> R): (r: seq<R>)
    ensures |r| == |s| && forall i :: 0 <= i < |s| ==> r[i] == f(s[i])
  {
    seq(|s|, i requires 0 <= i < |s| => f(s[i]))
  }

  /** The entries of `f` at the positions in `at`. */
  ghost function Image<T>(f: seq<T>, at: set<nat>): set<T>
    requires forall i :: i in at ==> i < |f|
  {
    set i | i in at :: f[i]
  }

  /** The first `k` positions. */
  ghost function Below(k: nat): (r: set<nat>)
    ensures forall i: nat :: i in r <==> i < k
  {
    if k == 0 then {} else Below(k - 1) + {k - 1}
  }

  lemma {:induction false} ImageIsNoLarger<T>(f: seq<T>, at: set<nat>)
    requires forall i :: i in at ==> i < |f|
    ensures |Image(f, at)| <= |at|
    decreases |at|
  {
    if at != {} {
      var i :| i in at;
      ImageIsNoLarger(f, at - {i});
      assert Image(f, at) == Image(f, at - {i}) + {f[i]};
    }
  }

  lemma {:induction false} InjectiveImageKeepsSize<T>(f: seq<T>, at: set<nat>)
    requires forall i :: i in at ==> i < |f|
    requires forall i, j :: i in at && j in at && i != j ==> f[i] != f[j]
    ensures |Image(f, at)| == |at|
    decreases |at|
  {
    if at != {} {
      var i :| i in at;
      InjectiveImageKeepsSize(f, at - {i});
      assert Image(f, at) == Image(f, at - {i}) + {f[i]};
      assert f[i] !in Image(f, at - {i});
    }
  }

  lemma SubsetIsNoLarger<T>(a: set<T>, b: set<T>)
    requires a <= b
    ensures |a| <= |b|
    ensures |a| == |b| ==> a == b
  {
    assert b == a + (b - a);
    assert |b| == |a| + |b - a|;
  }

  lemma {:induction false} ElementsSize<T>(s: seq<T>)
    ensures |Elements(s)| <= |s|
    ensures |Elements(s)| == |s| <==> Distinct(s)
  {
    if s != [] {
      var init, last := s[..|s| - 1], s[|s| - 1];
      ElementsSize(init);
      assert s == init + [last];
      assert Elements(s) == Elements(init) + {last};
      if last in init {
        assert Elements(s) == Elements(init);
      } else if Distinct(init) {
        assert Distinct(s);
      }
    }
  }

  lemma {:induction false} AnUnusedId(ids: set<nat>) returns (x: nat)
    ensures forall y :: y in ids ==> y < x
    decreases |ids|
  {
    if ids == {} {
      x := 0;
    } else {
      var y :| y in ids;
      var rest := AnUnusedId(ids - {y});
      x := if y < rest then rest else y + 1;
      assert forall z :: z in ids ==> z == y || z in ids - {y};
    }
  }
}
