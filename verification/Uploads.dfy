/** Where a learner's drawings live, and why no key can be claimed by two of them. */
module Uploads {
  import opened Prelude
  import opened Quiz
  import opened Decimals

  /** The one workspace these rows belong to. */
  const WORKSPACE: Id := 1

  /** drawPrefix: the learner's own place for one question of one attempt. An id prints without slashes. */
  function DrawPrefix(attempt: Id, question: Id, user: Id): string {
    "t/" + Decimal(WORKSPACE) + "/attempts/" + Decimal(attempt) + "/q/" + Decimal(question) + "/u/" + Decimal(user)
  }

  /** No drawing, or one under the learner's own prefix. */
  predicate IsOwnUpload(upload: string, attempt: Id, question: Id, user: Id) {
    upload == "" || DrawPrefix(attempt, question, user) + "/" <= upload
  }

  /** What stands before the first slash. */
  function Segment(s: string): string {
    if s == "" || s[0] == '/' then "" else [s[0]] + Segment(s[1..])
  }

  lemma {:induction false} SegmentReads(x: string, r: string)
    requires '/' !in x
    ensures Segment(x + "/" + r) == x
  {
    if x != "" {
      assert (x + "/" + r)[1..] == x[1..] + "/" + r;
      SegmentReads(x[1..], r);
      assert x == [x[0]] + x[1..];
    }
  }

  lemma IdSegmentIsUnique(a: Id, r: string, b: Id, s: string)
    requires Decimal(a) + "/" + r == Decimal(b) + "/" + s
    ensures a == b && r == s
  {
    assert '/' !in Decimal(a) && '/' !in Decimal(b);
    SegmentReads(Decimal(a), r);
    SegmentReads(Decimal(b), s);
    DecimalReads(a);
    DecimalReads(b);
    assert r == (Decimal(a) + "/" + r)[|Decimal(a)| + 1..] && s == (Decimal(b) + "/" + s)[|Decimal(b)| + 1..];
  }

  /** What follows the workspace in a key under the prefix. */
  function Tail(attempt: Id, question: Id, user: Id, rest: string): string {
    Decimal(attempt) + "/" + ("q/" + (Decimal(question) + "/" + ("u/" + (Decimal(user) + "/" + rest))))
  }

  lemma TailsAreDisjoint(a: Id, q: Id, u: Id, r: string, b: Id, p: Id, v: Id, s: string)
    requires Tail(a, q, u, r) == Tail(b, p, v, s)
    ensures (a, q, u) == (b, p, v)
  {
    var afterA := Decimal(q) + "/" + ("u/" + (Decimal(u) + "/" + r));
    var afterB := Decimal(p) + "/" + ("u/" + (Decimal(v) + "/" + s));
    IdSegmentIsUnique(a, "q/" + afterA, b, "q/" + afterB);
    assert ("q/" + afterA)[2..] == afterA && ("q/" + afterB)[2..] == afterB;
    var lastA, lastB := Decimal(u) + "/" + r, Decimal(v) + "/" + s;
    IdSegmentIsUnique(q, "u/" + lastA, p, "u/" + lastB);
    assert ("u/" + lastA)[2..] == lastA && ("u/" + lastB)[2..] == lastB;
    IdSegmentIsUnique(u, r, v, s);
  }

  lemma KeyHasTail(upload: string, a: Id, q: Id, u: Id) returns (rest: string)
    requires upload != "" && IsOwnUpload(upload, a, q, u)
    ensures upload == "t/" + Decimal(WORKSPACE) + "/attempts/" + Tail(a, q, u, rest)
  {
    var prefix := DrawPrefix(a, q, u) + "/";
    rest := upload[|prefix|..];
    assert upload == prefix + rest;
    var head := "t/" + Decimal(WORKSPACE) + "/attempts/";
    assert prefix + rest == head + Tail(a, q, u, rest);
  }

  /** A key is one learner's, for one question of one attempt: nobody else's answer can name it. */
  lemma NoKeyIsSharedByTwo(upload: string, a: Id, q: Id, u: Id, b: Id, p: Id, v: Id)
    requires upload != ""
    requires IsOwnUpload(upload, a, q, u) && IsOwnUpload(upload, b, p, v)
    ensures (a, q, u) == (b, p, v)
  {
    var r := KeyHasTail(upload, a, q, u);
    var s := KeyHasTail(upload, b, p, v);
    var head := "t/" + Decimal(WORKSPACE) + "/attempts/";
    assert upload[|head|..] == Tail(a, q, u, r) && upload[|head|..] == Tail(b, p, v, s);
    TailsAreDisjoint(a, q, u, r, b, p, v, s);
  }

  /** The key a learner is given for a drawing, the prefix and any name under it, is one they may save. */
  lemma OwnKeysAreOwn(attempt: Id, question: Id, user: Id, name: string)
    ensures IsOwnUpload(DrawPrefix(attempt, question, user) + "/" + name, attempt, question, user)
  {
    var prefix := DrawPrefix(attempt, question, user) + "/";
    assert (prefix + name)[..|prefix|] == prefix;
  }
}
