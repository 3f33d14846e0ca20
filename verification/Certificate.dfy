/** Certificate templates: what a placeholder is, and what rendering does with it. */
module Certificate {
  import opened Prelude
  import opened Text

  datatype Details = Details(learner: string, course: string, date: string, serial: string)

  /** `lower` is unicode.ToLower. */
  function Lookup(d: Details, name: string, lower: char -> char): Option<string> {
    var folded := Each(name, lower);
    if folded == "learner" || folded == "name" then Some(d.learner)
    else if folded == "course" then Some(d.course)
    else if folded == "date" then Some(d.date)
    else if folded == "serial" then Some(d.serial)
    else None
  }

  // ---- What a template is made of ----

  /** One plain character, a placeholder with its braces, or an opening that is never closed and all that follows it. */
  datatype Piece = Plain(c: char) | Named(inner: string) | Unclosed(text: string)

  predicate Opens(s: string) {
    |s| >= 2 && s[0] == '{' && s[1] == '{'
  }

  predicate ClosesAt(s: string, k: nat) {
    k + 1 < |s| && s[k] == '}' && s[k + 1] == '}'
  }

  predicate NeverCloses(s: string) {
    forall k: nat :: k < |s| ==> !ClosesAt(s, k)
  }

  function Source(p: Piece): string {
    match p
    case Plain(c) => [c]
    case Named(inner) => "{{" + inner + "}}"
    case Unclosed(text) => text
  }

  function Sources(pieces: seq<Piece>): string {
    if pieces == [] then "" else Source(pieces[0]) + Sources(pieces[1..])
  }

  /** `p` is what stands at the front of `s`: a placeholder runs to the first `}}` after its opening. */
  ghost predicate StandsFirst(p: Piece, s: string) {
    match p
    case Plain(c) => s != "" && s[0] == c && !Opens(s)
    case Named(inner) =>
      && Opens(s) && ClosesAt(s, |inner| + 2) && s[2..|inner| + 2] == inner
      && forall k: nat :: k < |inner| + 2 ==> !ClosesAt(s, k)
    case Unclosed(text) => text == s && Opens(s) && NeverCloses(s)
  }

  /** Each piece is what stands where it begins, and together they use the template up. */
  ghost predicate IsSegmentation(pieces: seq<Piece>, body: string) {
    if pieces == [] then body == ""
    else
      && StandsFirst(pieces[0], body) && Source(pieces[0]) <= body
      && IsSegmentation(pieces[1..], body[|Source(pieces[0])|..])
  }

  function Substitute(p: Piece, d: Details, lower: char -> char): string {
    match p
    case Named(inner) =>
      var value := Lookup(d, TrimSpace(inner), lower);
      if value.Some? then value.value else Source(p)
    case _ => Source(p)
  }

  ghost function Substituted(pieces: seq<Piece>, d: Details, lower: char -> char): string
    decreases |pieces|
  {
    if pieces == [] then "" else Substitute(pieces[0], d, lower) + Substituted(pieces[1..], d, lower)
  }

  // ---- There is exactly one segmentation ----

  /** Where the first `}}` of `s` is. */
  function Closing(s: string): (at: Option<nat>)
    ensures at.Some? ==> at.value + 1 < |s|
  {
    if s == "" then None
    else if ClosesAt(s, 0) then Some(0)
    else
      var rest := Closing(s[1..]);
      if rest.None? then None else Some(rest.value + 1)
  }

  lemma {:induction false} ClosingIsFirst(s: string)
    ensures Closing(s).Some? ==>
      ClosesAt(s, Closing(s).value) && forall k: nat :: k < Closing(s).value ==> !ClosesAt(s, k)
    ensures Closing(s).None? ==> NeverCloses(s)
  {
    if s != "" && !ClosesAt(s, 0) {
      ClosingIsFirst(s[1..]);
      assert forall k: nat :: k > 0 ==> (ClosesAt(s, k) <==> ClosesAt(s[1..], k - 1));
    }
  }

  function Front(s: string): Piece
    requires s != ""
  {
    if !Opens(s) then Plain(s[0])
    else
      var at := Closing(s[2..]);
      if at.None? then Unclosed(s) else Named(s[2..][..at.value])
  }

  lemma FrontStandsFirst(s: string)
    requires s != ""
    ensures StandsFirst(Front(s), s)
  {
    if Opens(s) {
      ClosingIsFirst(s[2..]);
      assert forall k: nat :: k >= 2 ==> (ClosesAt(s, k) <==> ClosesAt(s[2..], k - 2));
      assert !ClosesAt(s, 0) && !ClosesAt(s, 1);
    }
  }

  lemma StandsAsWritten(p: Piece, s: string)
    requires StandsFirst(p, s)
    ensures Source(p) <= s && Source(p) != ""
  {
    if p.Named? {
      var n := |p.inner|;
      assert s[..n + 4] == s[..2] + s[2..n + 2] + s[n + 2..n + 4];
      assert s[..2] == "{{" && s[n + 2..n + 4] == "}}";
    }
  }

  lemma OneStandsFirst(p: Piece, q: Piece, s: string)
    requires StandsFirst(p, s) && StandsFirst(q, s)
    ensures p == q
  {
    if p.Named? && q.Named? {
      assert |p.inner| == |q.inner|;
      assert p.inner == q.inner;
    }
  }

  ghost function Segments(body: string): seq<Piece>
    decreases |body|
  {
    if body == "" then []
    else
      FrontStandsFirst(body);
      StandsAsWritten(Front(body), body);
      [Front(body)] + Segments(body[|Source(Front(body))|..])
  }

  lemma {:induction false} SegmentsAre(body: string)
    ensures IsSegmentation(Segments(body), body)
    decreases |body|
  {
    if body != "" {
      FrontStandsFirst(body);
      StandsAsWritten(Front(body), body);
      SegmentsAre(body[|Source(Front(body))|..]);
    }
  }

  /** Every template has one segmentation and no other. */
  lemma {:induction false} SegmentationIsUnique(pieces: seq<Piece>, body: string)
    requires IsSegmentation(pieces, body)
    ensures pieces == Segments(body)
    decreases |pieces|
  {
    if pieces != [] {
      FrontStandsFirst(body);
      StandsAsWritten(pieces[0], body);
      OneStandsFirst(pieces[0], Front(body), body);
      SegmentationIsUnique(pieces[1..], body[|Source(pieces[0])|..]);
      assert pieces == [pieces[0]] + pieces[1..];
    }
  }

  /** Its pieces concatenate back to it. */
  lemma {:induction false} SegmentsConcatenate(pieces: seq<Piece>, body: string)
    requires IsSegmentation(pieces, body)
    ensures Sources(pieces) == body
    decreases |pieces|
  {
    if pieces != [] {
      var n := |Source(pieces[0])|;
      SegmentsConcatenate(pieces[1..], body[n..]);
      assert body == body[..n] + body[n..];
    }
  }

  // ---- Rendering ----

  method FindClose(s: string) returns (at: Option<nat>)
    ensures at.Some? ==> ClosesAt(s, at.value) && forall k: nat :: k < at.value ==> !ClosesAt(s, k)
    ensures at.None? ==> NeverCloses(s)
  {
    for i := 0 to |s|
      invariant forall k: nat :: k < i ==> !ClosesAt(s, k)
    {
      if ClosesAt(s, i) {
        return Some(i);
      }
    }
    return None;
  }

  /** The template with each of its pieces substituted. */
  ghost function Rendered(body: string, d: Details, lower: char -> char): string {
    Substituted(Segments(body), d, lower)
  }

  /** The piece at the front is substituted, and the rest is rendered as it would be alone. */
  lemma OnePieceRendered(s: string, p: Piece, d: Details, lower: char -> char)
    requires StandsFirst(p, s)
    ensures Source(p) <= s && Source(p) != ""
    ensures Rendered(s, d, lower) == Substitute(p, d, lower) + Rendered(s[|Source(p)|..], d, lower)
  {
    StandsAsWritten(p, s);
    FrontStandsFirst(s);
    OneStandsFirst(p, Front(s), s);
  }

  /** The piece at `s` as the scan reads it: to the first `}}`, or to the end, or one character. */
  method NextPiece(s: string) returns (p: Piece)
    requires s != ""
    ensures StandsFirst(p, s)
  {
    if s[0] != '{' || 1 >= |s| || s[1] != '{' {
      return Plain(s[0]);
    }
    var end := FindClose(s);
    if end.None? {
      return Unclosed(s);
    }
    assert ClosesAt(s, end.value);
    assert end.value >= 2;
    return Named(s[2..end.value]);
  }

  /** The value of a known name, and anything else as written. */
  method WritePiece(p: Piece, d: Details, lower: char -> char) returns (text: string)
    ensures text == Substitute(p, d, lower)
  {
    match p {
      case Plain(c) => return [c];
      case Unclosed(rest) => return rest;
      case Named(inner) =>
        var value := Lookup(d, TrimSpace(inner), lower);
        return if value.Some? then value.value else "{{" + inner + "}}";
    }
  }

  method RenderPiece(s: string, d: Details, lower: char -> char) returns (text: string, n: nat)
    requires s != ""
    ensures 0 < n <= |s|
    ensures Rendered(s, d, lower) == text + Rendered(s[n..], d, lower)
  {
    var p := NextPiece(s);
    OnePieceRendered(s, p, d, lower);
    text := WritePiece(p, d, lower);
    n := |Source(p)|;
  }

  lemma Regroup(a: string, b: string, c: string)
    ensures a + (b + c) == a + b + c
  {
  }

  lemma SliceOn(s: string, i: nat, n: nat)
    requires i + n <= |s|
    ensures s[i..][n..] == s[i + n..]
  {
  }

  /** One pass over the template; what is written out is never looked at again. */
  method Render(body: string, d: Details, lower: char -> char) returns (out: string)
    ensures out == Rendered(body, d, lower)
  {
    out := "";
    var i := 0;
    ghost var left := Rendered(body, d, lower);
    assert body[0..] == body;
    while i < |body|
      invariant 0 <= i <= |body|
      invariant Rendered(body, d, lower) == out + left && left == Rendered(body[i..], d, lower)
    {
      var text, n := RenderPiece(body[i..], d, lower);
      SliceOn(body, i, n);
      ghost var next := Rendered(body[i + n..], d, lower);
      Regroup(out, text, next);
      out, left := out + text, next;
      i := i + n;
    }
    assert body[i..] == "" && left == "";
  }

  // ---- What rendering keeps ----

  ghost predicate NamesNothing(p: Piece, d: Details, lower: char -> char) {
    p.Named? ==> Lookup(d, TrimSpace(p.inner), lower).None?
  }

  ghost predicate AllNameNothing(pieces: seq<Piece>, d: Details, lower: char -> char) {
    forall i :: 0 <= i < |pieces| ==> NamesNothing(pieces[i], d, lower)
  }

  lemma {:induction false} UnnamedPiecesStay(pieces: seq<Piece>, d: Details, lower: char -> char)
    requires AllNameNothing(pieces, d, lower)
    ensures Substituted(pieces, d, lower) == Sources(pieces)
    decreases |pieces|
  {
    if pieces != [] {
      assert NamesNothing(pieces[0], d, lower);
      UnnamedPiecesStay(pieces[1..], d, lower);
    }
  }

  /** A template that names nothing known renders to itself, misspelt and unclosed placeholders included. */
  lemma UnknownNamesSurvive(body: string, d: Details, lower: char -> char)
    requires AllNameNothing(Segments(body), d, lower)
    ensures Rendered(body, d, lower) == body
  {
    UnnamedPiecesStay(Segments(body), d, lower);
    SegmentsAre(body);
    SegmentsConcatenate(Segments(body), body);
  }

  lemma PlainRendered(c: char, rest: string, d: Details, lower: char -> char)
    requires c != '{'
    ensures Rendered([c] + rest, d, lower) == [c] + Rendered(rest, d, lower)
  {
    OnePieceRendered([c] + rest, Plain(c), d, lower);
    assert ([c] + rest)[1..] == rest;
  }

  lemma {:induction false} TextBefore(text: string, body: string, d: Details, lower: char -> char)
    requires '{' !in text
    ensures Rendered(text + body, d, lower) == text + Rendered(body, d, lower)
  {
    if text == "" {
      assert text + body == body;
    } else {
      var c, rest := text[0], text[1..];
      assert text == [c] + rest;
      TextBefore(rest, body, d, lower);
      PlainRendered(c, rest + body, d, lower);
      Regroup([c], rest, body);
      Regroup([c], rest, Rendered(body, d, lower));
    }
  }

  lemma PlaceholderStandsFirst(inner: string, after: string)
    requires '}' !in inner
    ensures StandsFirst(Named(inner), "{{" + inner + "}}" + after)
  {
    var s := "{{" + inner + "}}" + after;
    assert s[2..|inner| + 2] == inner;
    forall k: nat | k < |inner| + 2 ensures !ClosesAt(s, k) {
      assert s[k] == if k < 2 then '{' else inner[k - 2];
    }
  }

  /**
   A known placeholder becomes its value and nothing else: whatever braces the value holds, the text before
   stays as written and the text after renders as it would alone.
   */
  lemma ValuesAreNeverRescanned(before: string, inner: string, after: string, d: Details, lower: char -> char)
    requires '{' !in before && '}' !in inner
    requires Lookup(d, TrimSpace(inner), lower).Some?
    ensures Rendered(before + ("{{" + inner + "}}" + after), d, lower) ==
            before + (Lookup(d, TrimSpace(inner), lower).value + Rendered(after, d, lower))
  {
    var s := "{{" + inner + "}}" + after;
    TextBefore(before, s, d, lower);
    PlaceholderStandsFirst(inner, after);
    OnePieceRendered(s, Named(inner), d, lower);
    assert s[|Source(Named(inner))|..] == after;
  }

  // ---- Templates put together ----

  /** What is written next cannot change how `a` reads: nothing is left open, and no brace meets another. */
  ghost predicate CleanSeam(a: string, b: string) {
    a == "" || b == "" ||
    var last := Segments(a)[|Segments(a)| - 1];
    !last.Unclosed? && (last == Plain('{') ==> b[0] != '{')
  }

  /** A piece that has ended, and is not half of an opening, stands first whatever follows. */
  lemma EndedPieceStands(p: Piece, a: string, b: string)
    requires StandsFirst(p, a) && !p.Unclosed? && b != ""
    requires a == "{" ==> b[0] != '{'
    ensures StandsFirst(p, a + b)
  {
    if p.Named? {
      var n := |p.inner|;
      assert (a + b)[2..n + 2] == a[2..n + 2];
      forall k: nat | k < n + 2 ensures !ClosesAt(a + b, k) {
        assert !ClosesAt(a, k);
      }
    }
  }

  lemma OpenPieceIsAnother(a: string, b: string)
    requires a != "" && b != ""
    requires Front(a).Unclosed? || (a == "{" && b[0] == '{')
    ensures Front(a + b) != Front(a)
  {
    FrontStandsFirst(a);
    FrontStandsFirst(a + b);
    assert |a + b| > |a|;
  }

  lemma SegmentsFromFront(p: Piece, s: string)
    requires StandsFirst(p, s)
    ensures Source(p) <= s && Source(p) != ""
    ensures Segments(s) == [p] + Segments(s[|Source(p)|..])
  {
    StandsAsWritten(p, s);
    FrontStandsFirst(s);
    OneStandsFirst(p, Front(s), s);
  }

  lemma SeamOfRest(a: string, b: string, p: Piece, rest: string)
    requires a != "" && rest != "" && Segments(a) == [p] + Segments(rest)
    ensures CleanSeam(a, b) <==> CleanSeam(rest, b)
  {
    var last := Segments(rest)[|Segments(rest)| - 1];
    assert Segments(a)[|Segments(a)| - 1] == last;
  }

  lemma SameAfterTheFirst<T>(p: T, x: seq<T>, y: seq<T>, z: seq<T>)
    ensures [p] + x == [p] + y + z <==> x == y + z
  {
    assert ([p] + x)[1..] == x && ([p] + y + z)[1..] == y + z;
    assert [p] + (y + z) == [p] + y + z;
  }

  lemma DifferentFirst<T>(p: T, q: T, x: seq<T>, y: seq<T>)
    requires p != q
    ensures [p] + x != [q] + y
  {
    assert ([p] + x)[0] == p && ([q] + y)[0] == q;
  }

  lemma OpenSeam(a: string, b: string)
    requires a != "" && b != ""
    requires Front(a).Unclosed? || (a == "{" && b[0] == '{')
    ensures Segments(a + b) != Segments(a) + Segments(b) && !CleanSeam(a, b)
  {
    var p, q := Front(a), Front(a + b);
    FrontStandsFirst(a);
    SegmentsFromFront(p, a);
    assert a[|Source(p)|..] == "";
    assert Segments(a) == [p];
    OpenPieceIsAnother(a, b);
    FrontStandsFirst(a + b);
    SegmentsFromFront(q, a + b);
    DifferentFirst(q, p, Segments((a + b)[|Source(q)|..]), Segments(b));
  }

  lemma OnlyPiece(a: string, b: string, p: Piece)
    requires a != "" && b != "" && StandsFirst(p, a) && a == Source(p) && !p.Unclosed?
    requires a == "{" ==> b[0] != '{'
    ensures CleanSeam(a, b)
  {
    SegmentsFromFront(p, a);
    assert Segments(a) == [p];
  }

  /** The two read together as they do apart. */
  ghost predicate Joins(a: string, b: string) {
    Segments(a + b) == Segments(a) + Segments(b)
  }

  lemma NothingBefore(b: string)
    ensures Joins("", b)
  {
    assert "" + b == b;
  }

  lemma DropFromSum(a: string, b: string, n: nat)
    requires n <= |a|
    ensures (a + b)[n..] == a[n..] + b
  {
  }

  lemma EndedSeam(a: string, b: string, rest: string)
    requires a != "" && b != "" && !Front(a).Unclosed? && (a == "{" ==> b[0] != '{')
    requires |Source(Front(a))| <= |a| && rest == a[|Source(Front(a))|..]
    ensures Segments(a) == [Front(a)] + Segments(rest)
    ensures Segments(a + b) == [Front(a)] + Segments(rest + b)
  {
    var p := Front(a);
    FrontStandsFirst(a);
    EndedPieceStands(p, a, b);
    SegmentsFromFront(p, a);
    DropFromSum(a, b, |Source(p)|);
    SegmentsFromFront(p, a + b);
  }

  lemma {:induction false} OpenEndsJoin(a: string, b: string)
    requires a != "" && b != ""
    ensures Joins(a, b) <==> CleanSeam(a, b)
    decreases |a|
  {
    var p := Front(a);
    FrontStandsFirst(a);
    StandsAsWritten(p, a);
    var rest := a[|Source(p)|..];
    if p.Unclosed? || (a == "{" && b[0] == '{') {
      OpenSeam(a, b);
    } else {
      EndedSeam(a, b, rest);
      SameAfterTheFirst(p, Segments(rest + b), Segments(rest), Segments(b));
      if rest == "" {
        NothingBefore(b);
        OnlyPiece(a, b, p);
      } else {
        OpenEndsJoin(rest, b);
        SeamOfRest(a, b, p, rest);
      }
    }
  }

  /** Two templates put together read as the two apart if and only if the seam is clean. */
  lemma SegmentsJoinIff(a: string, b: string)
    ensures Segments(a + b) == Segments(a) + Segments(b) <==> CleanSeam(a, b)
  {
    if a == "" {
      NothingBefore(b);
    } else if b == "" {
      assert a + b == a;
    } else {
      OpenEndsJoin(a, b);
    }
  }

  lemma {:induction false} SubstitutedJoins(first: seq<Piece>, rest: seq<Piece>, d: Details, lower: char -> char)
    ensures Substituted(first + rest, d, lower) == Substituted(first, d, lower) + Substituted(rest, d, lower)
    decreases |first|
  {
    if first == [] {
      assert first + rest == rest;
    } else {
      assert (first + rest)[1..] == first[1..] + rest;
      SubstitutedJoins(first[1..], rest, d, lower);
    }
  }

  /** Across a clean seam each part renders as it would alone, whatever the values hold. */
  lemma PartsRenderAlone(a: string, b: string, d: Details, lower: char -> char)
    requires CleanSeam(a, b)
    ensures Rendered(a + b, d, lower) == Rendered(a, d, lower) + Rendered(b, d, lower)
  {
    SegmentsJoinIff(a, b);
    SubstitutedJoins(Segments(a), Segments(b), d, lower);
  }

  // ---- What the names stand for ----

  /**
   A placeholder alone, with whatever spaces and capitals, renders to the learner, the course, the date or the serial
   its name stands for, and to itself if it names none of them.
   */
  lemma EachNameStandsForItsOwn(inner: string, d: Details, lower: char -> char)
    requires '}' !in inner
    ensures var name, text := Each(TrimSpace(inner), lower), Rendered("{{" + inner + "}}", d, lower);
            && (name in {"learner", "name"} ==> text == d.learner)
            && (name == "course" ==> text == d.course)
            && (name == "date" ==> text == d.date)
            && (name == "serial" ==> text == d.serial)
            && (name !in {"learner", "name", "course", "date", "serial"} ==> text == "{{" + inner + "}}")
  {
    var s := "{{" + inner + "}}";
    assert s + "" == s;
    PlaceholderStandsFirst(inner, "");
    OnePieceRendered(s, Named(inner), d, lower);
    assert s[|Source(Named(inner))|..] == "";
    NamesDiffer();
  }

  lemma NamesDiffer()
    ensures Distinct(["learner", "name", "course", "date", "serial"])
  {
    assert |"learner"| == 7 && |"name"| == 4 && |"course"| == 6 && |"date"| == 4 && |"serial"| == 6;
    assert "name"[0] != "date"[0] && "course"[0] != "serial"[0];
  }
}
