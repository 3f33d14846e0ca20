/** Which names cleaning leaves alone, and when cleaning a cleaned name changes it again. */
module FilenameStability {
  import opened Prelude
  import opened Text
  import opened Utf8
  import opened Filename

  /** Words separated by single plain spaces, and nothing before or after. */
  ghost predicate Neat(t: string) {
    && Spaced(t)
    && (t != "" ==> t[|t| - 1] != ' ')
  }

  /** As `Neat`, but for the end. */
  ghost predicate Spaced(t: string) {
    && (t != "" ==> t[0] != ' ')
    && (forall i :: 0 <= i < |t| && IsSpace(t[i]) ==> t[i] == ' ')
    && (forall i, j :: 0 <= i < j < |t| && j == i + 1 ==> t[i] != ' ' || t[j] != ' ')
  }

  // ---- Neat text is what joining words gives ----

  lemma WordIsNeat(w: string)
    requires w != "" && NoSpace(w)
    ensures Neat(w)
  {
    assert IsSpace(' ');
  }

  lemma NeatAfterAWord(w: string, rest: string)
    requires w != "" && NoSpace(w) && rest != "" && Neat(rest)
    ensures Neat(w + " " + rest)
  {
    assert IsSpace(' ');
    var t := w + " " + rest;
    forall i, j | 0 <= i < j < |t| && j == i + 1 ensures t[i] != ' ' || t[j] != ' ' {
      if j > |w| + 1 {
        assert t[i] == rest[i - |w| - 1] && t[j] == rest[j - |w| - 1];
      } else if i < |w| {
        assert t[i] == w[i];
      } else {
        assert t[j] == rest[0];
      }
    }
    forall i | 0 <= i < |t| && IsSpace(t[i]) ensures t[i] == ' ' {
      if i > |w| {
        assert t[i] == rest[i - |w| - 1];
      }
    }
  }

  lemma {:induction false} JoinIsNeat(words: seq<string>)
    requires AreWords(words)
    ensures Neat(Join(words)) && (words != [] ==> Join(words) != "")
  {
    if |words| == 1 {
      WordIsNeat(words[0]);
    } else if words != [] {
      JoinIsNeat(words[1..]);
      NeatAfterAWord(words[0], Join(words[1..]));
    }
  }

  lemma NeatTail(t: string, n: nat)
    requires Neat(t) && n < |t| && IsSpace(t[n])
    ensures n + 1 < |t| && Neat(t[n + 1..])
  {
    var rest := t[n + 1..];
    assert t[n] == ' ';
    forall i, j | 0 <= i < j < |rest| && j == i + 1 ensures rest[i] != ' ' || rest[j] != ' ' {
      assert rest[i] == t[n + 1 + i] && rest[j] == t[n + 1 + j];
    }
    forall i | 0 <= i < |rest| && IsSpace(rest[i]) ensures rest[i] == ' ' {
      assert rest[i] == t[n + 1 + i];
    }
    if n + 1 < |t| {
      assert rest[0] == t[n + 1];
    }
  }

  lemma JoinOneMore(w: string, words: seq<string>)
    requires words != []
    ensures Join([w] + words) == w + " " + Join(words)
  {
    assert ([w] + words)[1..] == words;
  }

  lemma SpaceThenFields(rest: string)
    ensures Fields(" " + rest) == Fields(rest)
  {
    assert (" " + rest)[1..] == rest;
  }

  lemma OneWordIsJoined(w: string)
    requires w != "" && NoSpace(w)
    ensures Join(Fields(w)) == w
  {
    FieldsOfFirst(w, "");
    assert w + "" == w;
  }

  lemma WordBeforeJoined(w: string, rest: string)
    requires w != "" && NoSpace(w)
    requires rest != "" && Join(Fields(rest)) == rest
    ensures Join(Fields(w + (" " + rest))) == w + (" " + rest)
  {
    assert IsSpace(' ') && (" " + rest)[0] == ' ';
    FieldsOfFirst(w, " " + rest);
    SpaceThenFields(rest);
    assert Join([]) == "";
    JoinOneMore(w, Fields(rest));
    assert w + " " + rest == w + (" " + rest);
  }

  /** The first word of neat text, and neat text again after its space. */
  lemma NeatSplits(t: string) returns (w: string, rest: string)
    requires Neat(t) && t != ""
    ensures w != "" && NoSpace(w)
    ensures rest == "" ==> t == w
    ensures rest != "" ==> t == w + (" " + rest) && Neat(rest) && |rest| < |t|
  {
    var n := WordLength(t);
    w, rest := t[..n], "";
    if n < |t| {
      NeatTail(t, n);
      rest := t[n + 1..];
    }
  }

  lemma {:induction false} NeatIsJoined(t: string)
    requires Neat(t)
    ensures Join(Fields(t)) == t
    decreases |t|
  {
    if t != "" {
      var w, rest := NeatSplits(t);
      if rest == "" {
        OneWordIsJoined(w);
      } else {
        NeatIsJoined(rest);
        WordBeforeJoined(w, rest);
      }
    }
  }

  lemma NeatIsTight(t: string)
    requires Neat(t)
    ensures TrimSpace(t) == t
  {
  }

  // ---- What cleaning leaves alone ----

  lemma {:induction false} AsciiStaysItself(t: string, b: Byte)
    requires b in Encode(t) && b < 0x80
    ensures (b as char) in t
  {
    if b in Encode1(t[0]) {
      assert b as char == t[0];
    } else {
      AsciiStaysItself(t[1..], b);
    }
  }

  lemma EncodedHasNoDirectory(t: string)
    requires AllSafe(t)
    ensures BaseName(Encode(t)) == Encode(t)
  {
    var name := Encode(t);
    forall i | 0 <= i < |name| ensures !IsSeparator(name[i]) {
      if IsSeparator(name[i]) {
        AsciiStaysItself(t, name[i]);
      }
    }
    BaseNameIs(name, 0);
  }

  lemma {:induction false} PlainTextMapsToItself(t: string)
    requires AllSafe(t) && forall i :: 0 <= i < |t| && IsSpace(t[i]) ==> t[i] == ' '
    ensures Mapped(t) == t
  {
    if t != "" {
      PlainTextMapsToItself(t[1..]);
      assert t == [t[0]] + t[1..];
    }
  }

  lemma TidyingPlainText(t: string)
    requires AllSafe(t) && forall i :: 0 <= i < |t| && IsSpace(t[i]) ==> t[i] == ' '
    ensures Tidied(Encode(t)) == TrimSpace(Join(Fields(t)))
  {
    EncodedHasNoDirectory(t);
    DecodeOfEncode(t);
    PlainTextMapsToItself(t);
  }

  /** A name that is already neat and safe is not touched by tidying. */
  lemma NeatNamesAreKept(t: string)
    requires AllSafe(t) && Neat(t)
    ensures Tidied(Encode(t)) == t
  {
    TidyingPlainText(t);
    NeatIsJoined(t);
    NeatIsTight(t);
  }

  lemma TidiedIsNeat(name: Bytes)
    ensures Neat(Tidied(name))
  {
    var words := Fields(Mapped(Decode(BaseName(name))));
    JoinIsNeat(words);
    NeatIsTight(Join(words));
  }

  lemma KeptFits(t: string)
    ensures |Encode(Kept(t))| <= MAX_FILENAME_LENGTH && Kept(t) <= t
  {
    if |Encode(t)| > MAX_FILENAME_LENGTH {
      FittingIsLongest(t, MAX_FILENAME_LENGTH);
    }
  }

  lemma {:induction false} TrailingSpaceAddsNoWord(s: string)
    ensures Fields(s + " ") == Fields(s)
    decreases |s|
  {
    var t := s + " ";
    if s == "" {
      assert t[1..] == "";
    } else if IsSpace(s[0]) {
      assert t[1..] == s[1..] + " ";
      TrailingSpaceAddsNoWord(s[1..]);
    } else {
      var n := WordLength(s);
      assert s == s[..n] + s[n..] && t == s[..n] + (s[n..] + " ");
      WordThenSpace(s[..n], s[n..] + " ");
      assert t[..n] == s[..n] && t[n..] == s[n..] + " ";
      TrailingSpaceAddsNoWord(s[n..]);
    }
  }

  lemma NeatBeforeTheSpace(c: string)
    requires Spaced(c) && c != "" && c[|c| - 1] == ' '
    ensures c == c[..|c| - 1] + " " && Neat(c[..|c| - 1])
  {
    var s := c[..|c| - 1];
    assert c == s + " ";
    if s != "" {
      assert s[|s| - 1] == c[|c| - 2] && c[|c| - 1] == ' ';
    }
  }

  /** The tidied name is too long, and the last of its characters that fits is a space. */
  ghost predicate CutAfterASpace(name: Bytes) {
    var t := Tidied(name);
    var k := Fitting(t, MAX_FILENAME_LENGTH);
    |Encode(t)| > MAX_FILENAME_LENGTH && k > 0 && t[k - 1] == ' '
  }

  lemma EncodingsDiffer(s: string, t: string)
    requires s != t
    ensures Encode(s) != Encode(t)
  {
    DecodeOfEncode(s);
    DecodeOfEncode(t);
  }

  lemma StartOfNeatText(t: string, c: string)
    requires Neat(t) && AllSafe(t) && c <= t
    ensures Spaced(c) && AllSafe(c)
    ensures Neat(c) <==> c == "" || c[|c| - 1] != ' '
  {
  }

  lemma KeptOfTightText(t: string)
    requires t != "" ==> t[|t| - 1] != ' '
    ensures var k := Fitting(t, MAX_FILENAME_LENGTH);
            (Kept(t) != "" && Kept(t)[|Kept(t)| - 1] == ' ') <==>
            |Encode(t)| > MAX_FILENAME_LENGTH && k > 0 && t[k - 1] == ' '
  {
    if |Encode(t)| > MAX_FILENAME_LENGTH {
      assert Kept(t) == t[..Fitting(t, MAX_FILENAME_LENGTH)];
    } else {
      assert Kept(t) == t;
    }
  }

  /** What is kept ends in a space exactly when the cut fell right after one. */
  lemma KeptEndsInSpaceIff(name: Bytes)
    ensures var c := Kept(Tidied(name)); CutAfterASpace(name) <==> c != "" && c[|c| - 1] == ' '
  {
    TidiedIsNeat(name);
    KeptOfTightText(Tidied(name));
  }

  /** What is kept is safe and single-spaced, and neat unless the cut fell right after a space. */
  lemma KeptIsSpaced(name: Bytes)
    ensures AllSafe(Kept(Tidied(name))) && Spaced(Kept(Tidied(name)))
    ensures Neat(Kept(Tidied(name))) <==> !CutAfterASpace(name)
  {
    TidiedIsNeat(name);
    TidiedIsSafe(name);
    KeptFits(Tidied(name));
    StartOfNeatText(Tidied(name), Kept(Tidied(name)));
    KeptEndsInSpaceIff(name);
  }

  lemma NeatCleanNameIsStable(c: string)
    requires AllSafe(c) && Neat(c) && |Encode(c)| <= MAX_FILENAME_LENGTH
    requires Encode(c) != [] && Encode(c) != DOT && Encode(c) != DOT_DOT
    ensures Cleaned(Encode(c)) == Encode(c)
  {
    NeatNamesAreKept(c);
  }

  lemma FileIsStable()
    ensures Cleaned(FILE) == FILE
  {
    FileIsEncoded();
    WordIsNeat("file");
    NeatCleanNameIsStable("file");
  }

  lemma TidyingDropsTheSpace(c: string)
    requires AllSafe(c) && Spaced(c) && c != "" && c[|c| - 1] == ' '
    ensures Tidied(Encode(c)) == c[..|c| - 1]
  {
    var s := c[..|c| - 1];
    NeatBeforeTheSpace(c);
    TidyingPlainText(c);
    TrailingSpaceAddsNoWord(s);
    NeatIsJoined(s);
    NeatIsTight(s);
  }

  lemma CutNameIsTidiedAgain(c: string)
    requires AllSafe(c) && Spaced(c) && c != "" && c[|c| - 1] == ' '
    ensures Cleaned(Encode(c)) != Encode(c)
  {
    var s := c[..|c| - 1];
    TidyingDropsTheSpace(c);
    KeptFits(s);
    assert |Kept(s)| < |c|;
    EncodingsDiffer(Kept(s), c);
    FileIsEncoded();
    EncodingsDiffer("file", c);
  }

  lemma EndingInSpaceIsNoSpecialName(c: string)
    requires c != "" && c[|c| - 1] == ' '
    ensures Encode(c) != [] && Encode(c) != DOT && Encode(c) != DOT_DOT
  {
    DecodeOfEncode(c);
    DecodeOfEncode(".");
    DecodeOfEncode("..");
    assert Encode("") == [] && Encode(".") == DOT && Encode("..") == DOT_DOT;
  }

  lemma NeatlyKeptIsStable(name: Bytes)
    requires !CutAfterASpace(name)
    ensures Cleaned(Cleaned(name)) == Cleaned(name)
  {
    KeptIsSpaced(name);
    KeptFits(Tidied(name));
    if Cleaned(name) == FILE {
      FileIsStable();
    } else {
      NeatCleanNameIsStable(Kept(Tidied(name)));
    }
  }

  /** Cleaning a cleaned name changes nothing, unless the length limit cut it right after a space. */
  lemma CleaningTwiceIsStableIff(name: Bytes)
    ensures Cleaned(Cleaned(name)) == Cleaned(name) <==> !CutAfterASpace(name)
  {
    if CutAfterASpace(name) {
      KeptIsSpaced(name);
      KeptEndsInSpaceIff(name);
      EndingInSpaceIsNoSpecialName(Kept(Tidied(name)));
      CutNameIsTidiedAgain(Kept(Tidied(name)));
    } else {
      NeatlyKeptIsStable(name);
    }
  }

  // ---- Such names exist ----

  predicate AllAscii(t: string) {
    forall i :: 0 <= i < |t| ==> t[i] as int < 0x80
  }

  lemma {:induction false} AsciiTakesOneByteEach(t: string, n: nat)
    requires AllAscii(t)
    ensures |Encode(t)| == |t|
    ensures Fitting(t, n) == if |t| <= n then |t| else n
  {
    if t != "" {
      AsciiTakesOneByteEach(t[1..], if n > 0 then n - 1 else 0);
    }
  }

  /** Any neat plain name whose 255th character is a space is cut right after it. */
  lemma LongNamesAreCutAfterASpace(t: string)
    requires AllAscii(t) && AllSafe(t) && Neat(t)
    requires |t| > MAX_FILENAME_LENGTH && t[MAX_FILENAME_LENGTH - 1] == ' '
    ensures CutAfterASpace(Encode(t)) && Cleaned(Cleaned(Encode(t))) != Cleaned(Encode(t))
  {
    NeatNamesAreKept(t);
    AsciiTakesOneByteEach(t, MAX_FILENAME_LENGTH);
    assert Kept(t) == t[..MAX_FILENAME_LENGTH];
    CleaningTwiceIsStableIff(Encode(t));
  }

  /** For one, two words of 254 letters and one. */
  lemma SomeNameIsNotStable() returns (name: Bytes)
    ensures CutAfterASpace(name) && Cleaned(Cleaned(name)) != Cleaned(name)
  {
    var t: string := seq(MAX_FILENAME_LENGTH + 1, i => if i == MAX_FILENAME_LENGTH - 1 then ' ' else 'a');
    assert forall i :: 0 <= i < |t| ==> t[i] == if i == MAX_FILENAME_LENGTH - 1 then ' ' else 'a';
    assert !IsSpace('a');
    name := Encode(t);
    LongNamesAreCutAfterASpace(t);
  }
}
