/** The string helpers grading and authoring rely on, as Go's strings and unicode packages define them. */
module Text {
  import opened Prelude

  /** unicode.IsSpace. */
  predicate IsSpace(c: char) {
    var u := c as int;
    || 0x09 <= u <= 0x0D || u == 0x20 || u == 0x85 || u == 0xA0
    || u == 0x1680 || 0x2000 <= u <= 0x200A || u == 0x2028 || u == 0x2029
    || u == 0x202F || u == 0x205F || u == 0x3000
  }

  predicate AllSpace(s: string) {
    forall i :: 0 <= i < |s| ==> IsSpace(s[i])
  }

  predicate NoSpace(s: string) {
    forall i :: 0 <= i < |s| ==> !IsSpace(s[i])
  }

  function TrimLeft(s: string): string {
    if s != "" && IsSpace(s[0]) then TrimLeft(s[1..]) else s
  }

  function TrimRight(s: string): string {
    if s != "" && IsSpace(s[|s| - 1]) then TrimRight(s[..|s| - 1]) else s
  }

  function TrimSpace(s: string): string {
    TrimRight(TrimLeft(s))
  }

  /** How many characters stand before the first space. */
  function WordLength(s: string): (n: nat)
    ensures n <= |s| && NoSpace(s[..n])
    ensures n < |s| ==> IsSpace(s[n])
    ensures s != "" && !IsSpace(s[0]) ==> n > 0
  {
    if s == "" || IsSpace(s[0]) then 0 else 1 + WordLength(s[1..])
  }

  ghost predicate AreWords(words: seq<string>) {
    forall i :: 0 <= i < |words| ==> words[i] != "" && NoSpace(words[i])
  }

  /** strings.FieldsFunc(s, unicode.IsSpace): the words of `s`. */
  function Fields(s: string): (words: seq<string>)
    ensures AreWords(words)
    decreases |s|
  {
    if s == "" then []
    else if IsSpace(s[0]) then Fields(s[1..])
    else [s[..WordLength(s)]] + Fields(s[WordLength(s)..])
  }

  /** strings.Join(words, " "). */
  function Join(words: seq<string>): string {
    if words == [] then ""
    else if |words| == 1 then words[0]
    else words[0] + " " + Join(words[1..])
  }

  /** Trimmed, inner runs of space collapsed, and folded by `lower` unless case matters. */
  function Normalise(s: string, caseSensitive: bool, lower: char -> char): string {
    var joined := Join(Fields(s));
    if caseSensitive then joined else Each(joined, lower)
  }

  lemma {:induction false} TrimRightBlank(s: string)
    ensures TrimRight(s) == "" <==> AllSpace(s)
  {
    if s != "" && IsSpace(s[|s| - 1]) {
      TrimRightBlank(s[..|s| - 1]);
      assert s == s[..|s| - 1] + [s[|s| - 1]];
    }
  }

  lemma {:induction false} TrimSpaceBlank(s: string)
    ensures TrimSpace(s) == "" <==> AllSpace(s)
  {
    if s != "" && IsSpace(s[0]) {
      TrimSpaceBlank(s[1..]);
      assert s == [s[0]] + s[1..];
    } else {
      TrimRightBlank(s);
    }
  }

  lemma {:induction false} TrimRightTakesSpace(s: string) returns (after: string)
    ensures s == TrimRight(s) + after && AllSpace(after)
    ensures TrimRight(s) != "" ==> !IsSpace(TrimRight(s)[|TrimRight(s)| - 1])
  {
    after := "";
    if s != "" && IsSpace(s[|s| - 1]) {
      var init := s[..|s| - 1];
      var rest := TrimRightTakesSpace(init);
      after := rest + [s[|s| - 1]];
      assert s == init + [s[|s| - 1]];
    } else {
      assert s == s + "";
    }
  }

  lemma {:induction false} TrimLeftTakesSpace(s: string) returns (before: string)
    ensures s == before + TrimLeft(s) && AllSpace(before)
    ensures TrimLeft(s) != "" ==> !IsSpace(TrimLeft(s)[0])
  {
    before := "";
    if s != "" && IsSpace(s[0]) {
      var rest := TrimLeftTakesSpace(s[1..]);
      before := [s[0]] + rest;
      assert s == [s[0]] + s[1..];
    } else {
      assert s == "" + s;
    }
  }

  /** Trimming takes all the space at both ends and nothing else. */
  lemma TrimSpaceTakesTheEnds(s: string) returns (before: string, after: string)
    ensures s == before + TrimSpace(s) + after && AllSpace(before) && AllSpace(after)
    ensures var t := TrimSpace(s); t != "" ==> !IsSpace(t[0]) && !IsSpace(t[|t| - 1])
  {
    before := TrimLeftTakesSpace(s);
    after := TrimRightTakesSpace(TrimLeft(s));
    assert before + (TrimSpace(s) + after) == before + TrimSpace(s) + after;
  }

  lemma {:induction false} FieldsBlank(s: string)
    ensures Fields(s) == [] <==> AllSpace(s)
  {
    if s != "" && IsSpace(s[0]) {
      FieldsBlank(s[1..]);
      assert s == [s[0]] + s[1..];
    }
  }

  /** Authoring and grading agree on what a blank answer is. */
  lemma NormaliseBlank(s: string, caseSensitive: bool, lower: char -> char)
    ensures Normalise(s, caseSensitive, lower) == "" <==> TrimSpace(s) == ""
  {
    TrimSpaceBlank(s);
    FieldsBlank(s);
  }

  lemma {:induction false} WordThenSpace(w: string, rest: string)
    requires NoSpace(w) && (rest == "" || IsSpace(rest[0]))
    ensures WordLength(w + rest) == |w|
  {
    if w == "" {
      assert w + rest == rest;
    } else {
      assert (w + rest)[1..] == w[1..] + rest;
      WordThenSpace(w[1..], rest);
    }
  }

  lemma FieldsOfFirst(w: string, rest: string)
    requires w != "" && NoSpace(w) && (rest == "" || IsSpace(rest[0]))
    ensures Fields(w + rest) == [w] + Fields(rest)
  {
    WordThenSpace(w, rest);
    assert (w + rest)[0] == w[0];
    assert (w + rest)[..|w|] == w && (w + rest)[|w|..] == rest;
  }

  /** A space parts the words before it from those after, and adds none. */
  lemma {:induction false} FieldsAroundSpace(a: string, c: char, b: string)
    requires IsSpace(c)
    ensures Fields(a + ([c] + b)) == Fields(a) + Fields(b)
    decreases |a|
  {
    var rest := [c] + b;
    if a == "" {
      assert a + rest == rest && rest[1..] == b;
    } else if IsSpace(a[0]) {
      assert (a + rest)[1..] == a[1..] + rest;
      FieldsAroundSpace(a[1..], c, b);
    } else {
      var n := WordLength(a);
      assert a == a[..n] + a[n..] && a + rest == a[..n] + (a[n..] + rest);
      FieldsOfFirst(a[..n], a[n..] + rest);
      FieldsAroundSpace(a[n..], c, b);
    }
  }

  /** Splitting a joined word list gives the words back. */
  lemma {:induction false} FieldsOfJoin(words: seq<string>)
    requires AreWords(words)
    ensures Fields(Join(words)) == words
  {
    if |words| == 1 {
      FieldsOfFirst(words[0], "");
      assert words[0] + "" == words[0];
    } else if words != [] {
      var rest := " " + Join(words[1..]);
      assert Join(words) == words[0] + rest;
      FieldsOfFirst(words[0], rest);
      assert rest[1..] == Join(words[1..]);
      FieldsOfJoin(words[1..]);
    }
  }

  /** Two case-sensitive answers compare equal exactly when they have the same words. */
  lemma SameAnswerIffSameWords(a: string, b: string, lower: char -> char)
    ensures Normalise(a, true, lower) == Normalise(b, true, lower) <==> Fields(a) == Fields(b)
  {
    FieldsOfJoin(Fields(a));
    FieldsOfJoin(Fields(b));
  }
}
