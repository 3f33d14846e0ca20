/** The name a learner's upload is stored, shown and offered for download under. */
module Filename {
  import opened Utf8
  import opened Text

  const MAX_FILENAME_LENGTH := 255

  predicate IsSeparator(b: Byte) { b == 0x2F || b == 0x5C }

  /** unicode.IsControl */
  predicate IsControl(c: char) {
    c as int < 0x20 || 0x7F <= c as int <= 0x9F
  }

  /** Neither ends a header nor starts a directory. */
  predicate IsSafe(c: char) {
    !IsControl(c) && c != '/' && c != '\\'
  }

  predicate AllSafe(t: string) {
    forall i :: 0 <= i < |t| ==> IsSafe(t[i])
  }

  // ---- The passes ----

  /** What follows the last separator. */
  function BaseName(name: Bytes): (base: Bytes)
    ensures forall b :: b in base ==> !IsSeparator(b)
    ensures |base| <= |name| && base == name[|name| - |base|..]
    ensures |base| < |name| ==> IsSeparator(name[|name| - |base| - 1])
  {
    if name == [] || IsSeparator(name[|name| - 1]) then []
    else
      assert name == name[..|name| - 1] + [name[|name| - 1]];
      BaseName(name[..|name| - 1]) + [name[|name| - 1]]
  }

  /** Control characters dropped, every other space made a plain one. */
  function Mapped(t: string): string {
    if t == "" then ""
    else if IsControl(t[0]) then Mapped(t[1..])
    else [if IsSpace(t[0]) then ' ' else t[0]] + Mapped(t[1..])
  }

  /** The tidied name before anything is cut off. */
  function Tidied(name: Bytes): string {
    TrimSpace(Join(Fields(Mapped(Decode(BaseName(name))))))
  }

  /** As many whole characters as fit. */
  function Kept(t: string): string {
    if |Encode(t)| <= MAX_FILENAME_LENGTH then t else t[..Fitting(t, MAX_FILENAME_LENGTH)]
  }

  function Cleaned(name: Bytes): Bytes {
    var kept := Encode(Kept(Tidied(name)));
    if kept == [] || kept == DOT || kept == DOT_DOT then FILE else kept
  }

  const DOT: Bytes := [0x2E]
  const DOT_DOT: Bytes := [0x2E, 0x2E]
  const FILE: Bytes := [0x66, 0x69, 0x6C, 0x65]

  /** `cut` is what is left of `whole`: all of it, or as many whole characters as fit. */
  ghost predicate IsLongestFit(cut: Bytes, whole: Bytes) {
    && cut <= whole && Valid(cut) && |cut| <= MAX_FILENAME_LENGTH
    && forall m :: |cut| < m <= MAX_FILENAME_LENGTH && m <= |whole| ==> !Valid(whole[..m])
  }

  // ---- The same, in place ----

  method LastSeparator(name: Bytes) returns (after: nat)
    ensures after <= |name| && name[after..] == BaseName(name)
  {
    after := |name|;
    while after > 0 && !IsSeparator(name[after - 1])
      invariant after <= |name|
      invariant forall i :: after <= i < |name| ==> !IsSeparator(name[i])
    {
      after := after - 1;
    }
    BaseNameIs(name, after);
  }

  method MapRunes(t: string) returns (r: string)
    ensures r == Mapped(t)
  {
    r := "";
    for i := 0 to |t|
      invariant Mapped(t) == r + Mapped(t[i..])
    {
      if IsControl(t[i]) {
        assert t[i..][1..] == t[i + 1..];
      } else {
        assert t[i..][1..] == t[i + 1..];
        r := r + [if IsSpace(t[i]) then ' ' else t[i]];
      }
    }
  }

  /** Cuts at the limit and backs up to a whole character: never by more than three bytes. */
  method Truncate(t: string) returns (r: Bytes)
    ensures IsLongestFit(r, Encode(t))
    ensures r == Encode(Kept(t))
    ensures |Encode(t)| <= MAX_FILENAME_LENGTH ==> r == Encode(t)
    ensures |Encode(t)| > MAX_FILENAME_LENGTH ==> |r| >= MAX_FILENAME_LENGTH - 3
  {
    r := Encode(t);
    EncodeIsValid(t);
    if |r| > MAX_FILENAME_LENGTH {
      ghost var kept := Encode(t[..Fitting(t, MAX_FILENAME_LENGTH)]);
      FittingIsLongest(t, MAX_FILENAME_LENGTH);
      EncodeIsValid(t[..Fitting(t, MAX_FILENAME_LENGTH)]);
      r := r[..MAX_FILENAME_LENGTH];
      while |r| > 0 && !Valid(r)
        invariant |kept| <= |r| <= MAX_FILENAME_LENGTH
        invariant r == Encode(t)[..|r|]
      {
        assert r != kept;
        r := r[..|r| - 1];
      }
      assert r == kept;
    }
  }

  /**
   Whatever bytes came in: a name that is not blank, fits in 255 bytes, is well-formed UTF-8, holds no
   separator and no control character, and is neither `.` nor `..`; and it is the tidied name, cut no
   further than it has to be.
   */
  method CleanFilename(name: Bytes) returns (r: Bytes)
    ensures r != [] && |r| <= MAX_FILENAME_LENGTH && Valid(r)
    ensures AllSafe(Decode(r))
    ensures r != DOT && r != DOT_DOT
    ensures r == Cleaned(name)
    ensures Encode(Tidied(name)) in {[], DOT, DOT_DOT} ==> r == FILE
    ensures Encode(Tidied(name)) !in {[], DOT, DOT_DOT} ==> IsLongestFit(r, Encode(Tidied(name)))
    ensures |Encode(Tidied(name))| > MAX_FILENAME_LENGTH ==> |r| >= MAX_FILENAME_LENGTH - 3
  {
    var after := LastSeparator(name);
    var base := name[after..];
    var t := MapRunes(Decode(base));
    t := TrimSpace(Join(Fields(t)));
    assert t == Tidied(name);
    TidiedIsSafe(name);
    r := Truncate(t);
    DecodeOfEncode(Kept(t));
    if r == [] || r == DOT || r == DOT_DOT {
      r := FILE;
      FileIsSafe();
    }
  }

  // ---- Why ----

  lemma {:induction false} BaseNameIs(name: Bytes, after: nat)
    requires after <= |name| && (after > 0 ==> IsSeparator(name[after - 1]))
    requires forall i :: after <= i < |name| ==> !IsSeparator(name[i])
    ensures BaseName(name) == name[after..]
  {
    if after < |name| {
      var init := name[..|name| - 1];
      BaseNameIs(init, after);
      assert name[after..] == init[after..] + [name[|name| - 1]];
    }
  }

  lemma {:induction false} MappedIsSafe(t: string)
    requires '/' !in t && '\\' !in t
    ensures AllSafe(Mapped(t))
  {
    if t != "" {
      assert forall c :: c in t[1..] ==> c in t;
      MappedIsSafe(t[1..]);
    }
  }

  lemma {:induction false} FieldsAreSafe(t: string)
    requires AllSafe(t)
    ensures forall i :: 0 <= i < |Fields(t)| ==> AllSafe(Fields(t)[i])
    decreases |t|
  {
    if t != "" {
      if IsSpace(t[0]) {
        FieldsAreSafe(t[1..]);
      } else {
        FieldsAreSafe(t[WordLength(t)..]);
      }
    }
  }

  lemma {:induction false} JoinIsSafe(words: seq<string>)
    requires forall i :: 0 <= i < |words| ==> AllSafe(words[i])
    ensures AllSafe(Join(words))
  {
    if |words| > 1 {
      JoinIsSafe(words[1..]);
    }
  }

  lemma {:induction false} TrimLeftIsSafe(t: string)
    requires AllSafe(t)
    ensures AllSafe(TrimLeft(t))
  {
    if t != "" && IsSpace(t[0]) {
      TrimLeftIsSafe(t[1..]);
    }
  }

  lemma {:induction false} TrimRightIsSafe(t: string)
    requires AllSafe(t)
    ensures AllSafe(TrimRight(t))
  {
    if t != "" && IsSpace(t[|t| - 1]) {
      TrimRightIsSafe(t[..|t| - 1]);
    }
  }

  lemma TidiedIsSafe(name: Bytes)
    ensures AllSafe(Tidied(name))
  {
    var base := BaseName(name);
    var t := Decode(base);
    if '/' in t {
      AsciiComesFromItself(base, '/');
    }
    if '\\' in t {
      AsciiComesFromItself(base, '\\');
    }
    MappedIsSafe(t);
    FieldsAreSafe(Mapped(t));
    JoinIsSafe(Fields(Mapped(t)));
    TrimLeftIsSafe(Join(Fields(Mapped(t))));
    TrimRightIsSafe(TrimLeft(Join(Fields(Mapped(t)))));
  }

  lemma FileIsEncoded()
    ensures Encode("file") == FILE
  {
    assert Encode("e") == [0x65];
    assert Encode("le") == [0x6C, 0x65];
    assert Encode("ile") == [0x69, 0x6C, 0x65];
  }

  lemma FileIsSafe()
    ensures Valid(FILE) && AllSafe(Decode(FILE))
  {
    FileIsEncoded();
    EncodeIsValid("file");
    DecodeOfEncode("file");
  }
}
