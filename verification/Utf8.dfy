/** UTF-8 as section 4 of RFC 3629 defines it, and as Go decodes it: a byte that fits nowhere reads as U+FFFD. */
module Utf8 {

  type Byte = b: nat | b < 256

  type Bytes = seq<Byte>

  const REPLACEMENT: char := '\U{FFFD}'

  // ---- Well-formed bytes ----

  predicate IsTail(b: Byte) { 0x80 <= b <= 0xBF }

  /** The bytes a three-byte character may continue with after its first. */
  predicate SecondOfThree(first: Byte, second: Byte) {
    || (first == 0xE0 && 0xA0 <= second <= 0xBF)
    || (0xE1 <= first <= 0xEC && IsTail(second))
    || (first == 0xED && 0x80 <= second <= 0x9F)
    || (0xEE <= first <= 0xEF && IsTail(second))
  }

  predicate SecondOfFour(first: Byte, second: Byte) {
    || (first == 0xF0 && 0x90 <= second <= 0xBF)
    || (0xF1 <= first <= 0xF3 && IsTail(second))
    || (first == 0xF4 && 0x80 <= second <= 0x8F)
  }

  /** How many bytes the character at the front of `s` has; none if no well-formed character stands there. */
  function Width(s: Bytes): (w: nat)
    ensures w <= |s| && w <= 4
  {
    if s == [] then 0
    else if s[0] <= 0x7F then 1
    else if |s| >= 2 && 0xC2 <= s[0] <= 0xDF && IsTail(s[1]) then 2
    else if |s| >= 3 && SecondOfThree(s[0], s[1]) && IsTail(s[2]) then 3
    else if |s| >= 4 && SecondOfFour(s[0], s[1]) && IsTail(s[2]) && IsTail(s[3]) then 4
    else 0
  }

  predicate Valid(s: Bytes)
    decreases |s|
  {
    s == [] || (Width(s) > 0 && Valid(s[Width(s)..]))
  }

  // ---- Characters ----

  function Encode1(c: char): (s: Bytes)
    ensures 1 <= |s| <= 4
  {
    var u := c as int;
    if u < 0x80 then [u]
    else if u < 0x800 then [0xC0 + u / 0x40, 0x80 + u % 0x40]
    else if u < 0x1_0000 then [0xE0 + u / 0x1000, 0x80 + u / 0x40 % 0x40, 0x80 + u % 0x40]
    else [0xF0 + u / 0x4_0000, 0x80 + u / 0x1000 % 0x40, 0x80 + u / 0x40 % 0x40, 0x80 + u % 0x40]
  }

  function Encode(t: string): Bytes {
    if t == "" then [] else Encode1(t[0]) + Encode(t[1..])
  }

  /** What a byte contributes beyond its marker. */
  function Bits(b: Byte, marker: int): int { b - marker }

  /** The character at the front of `s`, and U+FFFD where there is none. */
  function First(s: Bytes): (c: char)
    requires s != []
  {
    match Width(s)
    case 1 => s[0] as char
    case 2 => (Bits(s[0], 0xC0) * 0x40 + Bits(s[1], 0x80)) as char
    case 3 => (Bits(s[0], 0xE0) * 0x1000 + Bits(s[1], 0x80) * 0x40 + Bits(s[2], 0x80)) as char
    case 4 =>
      (Bits(s[0], 0xF0) * 0x4_0000 + Bits(s[1], 0x80) * 0x1000 + Bits(s[2], 0x80) * 0x40 + Bits(s[3], 0x80)) as char
    case _ => REPLACEMENT
  }

  /** How far Go's `range` moves on: past the character, or past one byte that starts none. */
  function Step(s: Bytes): (n: nat)
    requires s != []
    ensures 1 <= n <= |s|
  {
    if Width(s) == 0 then 1 else Width(s)
  }

  function Decode(s: Bytes): string
    decreases |s|
  {
    if s == [] then "" else [First(s)] + Decode(s[Step(s)..])
  }

  // ---- Encoding and decoding ----

  lemma TwoBytesRead(c: char, rest: Bytes)
    requires 0x80 <= c as int < 0x800
    ensures Width(Encode1(c) + rest) == |Encode1(c)| && First(Encode1(c) + rest) == c
  {
    assert 2 <= c as int / 0x40 < 0x20;
  }

  lemma ThreeBytesRead(c: char, rest: Bytes)
    requires 0x800 <= c as int < 0x1_0000
    ensures Width(Encode1(c) + rest) == |Encode1(c)| && First(Encode1(c) + rest) == c
  {
    var u := c as int;
    assert u / 0x40 / 0x40 == u / 0x1000 < 0x10;
  }

  lemma FourBytesRead(c: char, rest: Bytes)
    requires 0x1_0000 <= c as int
    ensures Width(Encode1(c) + rest) == |Encode1(c)| && First(Encode1(c) + rest) == c
  {
    var u := c as int;
    assert u / 0x40 / 0x40 == u / 0x1000 && u / 0x1000 / 0x40 == u / 0x4_0000 < 5;
  }

  /** A character's bytes are read back as that character, whatever follows. */
  lemma Encode1Reads(c: char, rest: Bytes)
    ensures Width(Encode1(c) + rest) == |Encode1(c)| && First(Encode1(c) + rest) == c
  {
    if c as int < 0x80 {
    } else if c as int < 0x800 {
      TwoBytesRead(c, rest);
    } else if c as int < 0x1_0000 {
      ThreeBytesRead(c, rest);
    } else {
      FourBytesRead(c, rest);
    }
  }

  lemma {:induction false} EncodeIsValid(t: string)
    ensures Valid(Encode(t))
  {
    if t != "" {
      Encode1Reads(t[0], Encode(t[1..]));
      assert Encode(t)[|Encode1(t[0])|..] == Encode(t[1..]);
      EncodeIsValid(t[1..]);
    }
  }

  /** Decoding is the inverse of encoding. */
  lemma {:induction false} DecodeOfEncode(t: string)
    ensures Decode(Encode(t)) == t
  {
    if t != "" {
      Encode1Reads(t[0], Encode(t[1..]));
      assert Encode(t)[|Encode1(t[0])|..] == Encode(t[1..]);
      DecodeOfEncode(t[1..]);
      assert t == [t[0]] + t[1..];
    }
  }

  lemma SplitLow(a: nat, b: nat)
    requires b < 0x40
    ensures (a * 0x40 + b) / 0x40 == a && (a * 0x40 + b) % 0x40 == b
  {
  }

  lemma TwoBytesWritten(s: Bytes)
    requires |s| >= 2 && 0xC2 <= s[0] <= 0xDF && IsTail(s[1])
    ensures Encode1(First(s)) == [s[0], s[1]]
  {
    SplitLow(s[0] - 0xC0, s[1] - 0x80);
  }

  lemma ThreeBytesWritten(s: Bytes)
    requires |s| >= 3 && s[0] > 0xDF && SecondOfThree(s[0], s[1]) && IsTail(s[2])
    ensures Encode1(First(s)) == [s[0], s[1], s[2]]
  {
    var a: int, b: int, c: int := s[0] - 0xE0, s[1] - 0x80, s[2] - 0x80;
    var u := a * 0x1000 + b * 0x40 + c;
    assert u == (a * 0x40 + b) * 0x40 + c;
    SplitLow(a * 0x40 + b, c);
    SplitLow(a, b);
    assert u / 0x1000 == u / 0x40 / 0x40;
    assert 0x800 <= u < 0x1_0000;
  }

  lemma FourBytesWritten(s: Bytes)
    requires |s| >= 4 && s[0] > 0xEF && SecondOfFour(s[0], s[1]) && IsTail(s[2]) && IsTail(s[3])
    ensures Encode1(First(s)) == [s[0], s[1], s[2], s[3]]
  {
    var a: int, b: int, c: int, d: int := s[0] - 0xF0, s[1] - 0x80, s[2] - 0x80, s[3] - 0x80;
    var high := a * 0x1000 + b * 0x40 + c;
    var u := a * 0x4_0000 + b * 0x1000 + c * 0x40 + d;
    assert u == high * 0x40 + d && high == (a * 0x40 + b) * 0x40 + c;
    SplitLow(high, d);
    SplitLow(a * 0x40 + b, c);
    SplitLow(a, b);
    assert u / 0x1000 == u / 0x40 / 0x40 && u / 0x4_0000 == u / 0x40 / 0x40 / 0x40;
    assert 0x1_0000 <= u;
  }

  lemma FirstIsEncoded(s: Bytes)
    requires Width(s) > 0
    ensures Encode1(First(s)) == s[..Width(s)]
  {
    if Width(s) == 2 {
      TwoBytesWritten(s);
    } else if Width(s) == 3 {
      ThreeBytesWritten(s);
    } else if Width(s) == 4 {
      FourBytesWritten(s);
    }
  }

  lemma EncodeOneMore(c: char, t: string)
    ensures Encode([c] + t) == Encode1(c) + Encode(t)
  {
    assert ([c] + t)[1..] == t;
  }

  lemma TakenAndDropped(s: Bytes, n: nat)
    requires n <= |s|
    ensures s[..n] + s[n..] == s
  {
  }

  lemma DecodeOneMore(s: Bytes)
    requires Width(s) > 0
    ensures Decode(s) == [First(s)] + Decode(s[Width(s)..])
  {
  }

  lemma EncodeFromFirst(s: Bytes)
    requires Width(s) > 0 && Encode(Decode(s[Width(s)..])) == s[Width(s)..]
    ensures Encode(Decode(s)) == s
  {
    var w := Width(s);
    FirstIsEncoded(s);
    DecodeOneMore(s);
    EncodeOneMore(First(s), Decode(s[w..]));
    TakenAndDropped(s, w);
  }

  lemma {:induction false} ValidIsEncoded(s: Bytes)
    requires Valid(s)
    ensures Encode(Decode(s)) == s
    decreases |s|
  {
    if s != [] {
      ValidIsEncoded(s[Width(s)..]);
      EncodeFromFirst(s);
    }
  }

  /** Well-formed bytes are exactly those that the text they decode to encodes to. */
  lemma EncodeOfDecode(s: Bytes)
    ensures Valid(s) <==> Encode(Decode(s)) == s
  {
    EncodeIsValid(Decode(s));
    if Valid(s) {
      ValidIsEncoded(s);
    }
  }

  /** A byte that starts no character reads as one U+FFFD, and reading goes on after it. */
  lemma BadBytesAreReplaced(s: Bytes)
    requires s != [] && Width(s) == 0
    ensures Decode(s) == [REPLACEMENT] + Decode(s[1..])
  {
  }

  /** An ASCII character can only have come from its own byte. */
  lemma {:induction false} AsciiComesFromItself(s: Bytes, c: char)
    requires c in Decode(s) && c as int < 0x80
    ensures c as int in s
    decreases |s|
  {
    if First(s) == c {
      assert Width(s) == 1;
    } else {
      AsciiComesFromItself(s[Step(s)..], c);
      assert forall b :: b in s[Step(s)..] ==> b in s;
    }
  }

  // ---- Cutting encoded text ----

  /** A character cut short is not a character. */
  lemma CutCharacterIsInvalid(c: char, n: nat)
    requires 0 < n < |Encode1(c)|
    ensures !Valid(Encode1(c)[..n])
  {
    Encode1Reads(c, []);
    assert Encode1(c) + [] == Encode1(c);
    assert Width(Encode1(c)[..n]) == 0;
  }

  lemma ValidPastFirst(c: char, rest: Bytes)
    ensures Valid(Encode1(c) + rest) <==> Valid(rest)
  {
    Encode1Reads(c, rest);
    assert (Encode1(c) + rest)[|Encode1(c)|..] == rest;
  }

  /** How many characters of `t` fit in `n` bytes. */
  function Fitting(t: string, n: nat): (k: nat)
    ensures k <= |t|
  {
    if t == "" || |Encode1(t[0])| > n then 0 else 1 + Fitting(t[1..], n - |Encode1(t[0])|)
  }

  ghost predicate IsLongestKept(kept: Bytes, whole: Bytes, n: nat)
    requires n <= |whole|
  {
    && kept <= whole[..n] && n <= |kept| + 3
    && forall m :: |kept| < m <= n ==> !Valid(whole[..m])
  }

  lemma CutsPastFirst(c: char, rest: Bytes, kept: nat, n: nat)
    requires |Encode1(c)| <= n <= |Encode1(c)| + |rest|
    requires forall m :: kept < m <= n - |Encode1(c)| ==> !Valid(rest[..m])
    ensures forall m :: |Encode1(c)| + kept < m <= n ==> !Valid((Encode1(c) + rest)[..m])
  {
    var w := |Encode1(c)|;
    forall m | w + kept < m <= n ensures !Valid((Encode1(c) + rest)[..m]) {
      assert (Encode1(c) + rest)[..m] == Encode1(c) + rest[..m - w];
      ValidPastFirst(c, rest[..m - w]);
    }
  }

  lemma LongestPastFirst(c: char, kept: Bytes, rest: Bytes, n: nat)
    requires n <= |rest| && IsLongestKept(kept, rest, n)
    ensures IsLongestKept(Encode1(c) + kept, Encode1(c) + rest, n + |Encode1(c)|)
  {
    CutsPastFirst(c, rest, |kept|, n + |Encode1(c)|);
    assert (Encode1(c) + rest)[..n + |Encode1(c)|] == Encode1(c) + rest[..n];
  }

  lemma FittingOneMore(t: string, n: nat)
    requires t != "" && |Encode1(t[0])| <= n
    ensures Encode(t) == Encode1(t[0]) + Encode(t[1..])
    ensures var k := Fitting(t[1..], n - |Encode1(t[0])|);
            Encode(t[..Fitting(t, n)]) == Encode1(t[0]) + Encode(t[1..][..k])
  {
    var k := Fitting(t[1..], n - |Encode1(t[0])|);
    assert t[..k + 1] == [t[0]] + t[1..][..k];
    EncodeOneMore(t[0], t[1..][..k]);
  }

  lemma OneMoreFits(t: string, n: nat)
    requires t != "" && |Encode1(t[0])| <= n <= |Encode(t)|
    requires var k := Fitting(t[1..], n - |Encode1(t[0])|);
             IsLongestKept(Encode(t[1..][..k]), Encode(t[1..]), n - |Encode1(t[0])|)
    ensures IsLongestKept(Encode(t[..Fitting(t, n)]), Encode(t), n)
  {
    var m := n - |Encode1(t[0])|;
    FittingOneMore(t, n);
    LongestPastFirst(t[0], Encode(t[1..][..Fitting(t[1..], m)]), Encode(t[1..]), m);
  }

  /** The whole characters that fit are the longest well-formed prefix, and at most three bytes go to waste. */
  lemma {:induction false} FittingIsLongest(t: string, n: nat)
    requires n <= |Encode(t)|
    ensures IsLongestKept(Encode(t[..Fitting(t, n)]), Encode(t), n)
  {
    if t == "" {
    } else if |Encode1(t[0])| > n {
      assert t[..0] == "";
      forall m | 0 < m <= n ensures !Valid(Encode(t)[..m]) {
        assert Encode(t)[..m] == Encode1(t[0])[..m];
        CutCharacterIsInvalid(t[0], m);
      }
    } else {
      FittingIsLongest(t[1..], n - |Encode1(t[0])|);
      OneMoreFits(t, n);
    }
  }
}
