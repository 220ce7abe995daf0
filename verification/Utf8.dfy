/** UTF-8 as section 4 of RFC 3629 defines it, and the helper's hand-written validator. */
module Utf8 {
  import opened ByteStrings
  import opened Results

  predicate Tail(b: byte) {
    0x80 <= b <= 0xbf
  }

  /** Length of the UTF8-char (section 4 of RFC 3629) that begins `s`, or 0 when none does. */
  function CharLength(s: Bytes): (n: nat)
    ensures n <= |s|
  {
    if |s| >= 1 && s[0] <= 0x7f then 1
    else if |s| >= 2 && 0xc2 <= s[0] <= 0xdf && Tail(s[1]) then 2
    else if |s| >= 3 && ThreeByteStart(s[0], s[1]) && Tail(s[2]) then 3
    else if |s| >= 4 && FourByteStart(s[0], s[1]) && Tail(s[2]) && Tail(s[3]) then 4
    else 0
  }

  predicate ThreeByteStart(a: byte, b: byte) {
    || (a == 0xe0 && 0xa0 <= b <= 0xbf)
    || (0xe1 <= a <= 0xec && Tail(b))
    || (a == 0xed && 0x80 <= b <= 0x9f)
    || (0xee <= a <= 0xef && Tail(b))
  }

  predicate FourByteStart(a: byte, b: byte) {
    || (a == 0xf0 && 0x90 <= b <= 0xbf)
    || (0xf1 <= a <= 0xf3 && Tail(b))
    || (a == 0xf4 && 0x80 <= b <= 0x8f)
  }

  predicate WellFormed(s: Bytes) {
    s == [] || (CharLength(s) > 0 && WellFormed(s[CharLength(s)..]))
  }

  /** What a string type holds. */
  type Text = s: Bytes | WellFormed(s)

  lemma {:induction false} AsciiIsText(s: Bytes)
    requires forall i :: 0 <= i < |s| ==> s[i] < 0x80
    ensures WellFormed(s)
  {
    if s != [] {
      AsciiIsText(s[1..]);
    }
  }

  /** An ASCII literal as text. */
  function Literal(s: string): (t: Text)
    ensures t == Ascii(s)
  {
    AsciiIsText(Ascii(s));
    Ascii(s)
  }

  // ----- the grammar against the encoding table of section 3 of RFC 3629

  predicate IsScalar(c: nat) {
    c <= 0x10ffff && !(0xd800 <= c <= 0xdfff)
  }

  function EncodeScalar(c: nat): (s: Bytes)
    requires IsScalar(c)
  {
    if c <= 0x7f then [c]
    else if c <= 0x7ff then [0xc0 + c / 64, 0x80 + c % 64]
    else if c <= 0xffff then [0xe0 + c / 4096, 0x80 + c / 64 % 64, 0x80 + c % 64]
    else [0xf0 + c / 262144, 0x80 + c / 4096 % 64, 0x80 + c / 64 % 64, 0x80 + c % 64]
  }

  function EncodeScalars(cs: seq<nat>): (s: Bytes)
    requires forall c :: c in cs ==> IsScalar(c)
  {
    if cs == [] then [] else EncodeScalar(cs[0]) + EncodeScalars(cs[1..])
  }

  function ScalarAt(s: Bytes): (c: nat)
    requires CharLength(s) > 0
    ensures IsScalar(c) && EncodeScalar(c) == s[..CharLength(s)]
  {
    match CharLength(s)
    case 1 => s[0]
    case 2 => EncodeTwo(s[0], s[1]); TwoBytes(s[0], s[1])
    case 3 => EncodeThree(s[0], s[1], s[2]); ThreeBytes(s[0], s[1], s[2])
    case _ => EncodeFour(s[0], s[1], s[2], s[3]); FourBytes(s[0], s[1], s[2], s[3])
  }

  lemma EncodeTwo(a: byte, b: byte)
    requires 0xc2 <= a <= 0xdf && Tail(b)
    ensures TwoBytes(a, b) >= 0 && IsScalar(TwoBytes(a, b)) && EncodeScalar(TwoBytes(a, b)) == [a, b]
  {
  }

  lemma EncodeThree(a: byte, b: byte, c: byte)
    requires ThreeByteStart(a, b) && Tail(c)
    ensures ThreeBytes(a, b, c) >= 0 && IsScalar(ThreeBytes(a, b, c)) && EncodeScalar(ThreeBytes(a, b, c)) == [a, b, c]
  {
    var r := ThreeBytes(a, b, c);
    assert r / 64 == 64 * (a as int - 0xe0) + (b as int - 0x80);
    assert r / 4096 == a as int - 0xe0;
  }

  lemma EncodeFour(a: byte, b: byte, c: byte, d: byte)
    requires FourByteStart(a, b) && Tail(c) && Tail(d)
    ensures FourBytes(a, b, c, d) >= 0 && IsScalar(FourBytes(a, b, c, d)) && EncodeScalar(FourBytes(a, b, c, d)) == [a, b, c, d]
  {
    var r := FourBytes(a, b, c, d);
    assert r / 64 == 4096 * (a as int - 0xf0) + 64 * (b as int - 0x80) + (c as int - 0x80);
    assert r / 4096 == 64 * (a as int - 0xf0) + (b as int - 0x80);
    assert r / 262144 == a as int - 0xf0;
  }

  // The code point carried by the payload bits of two, three and four bytes.

  function TwoBytes(a: int, b: int): (c: int) {
    64 * (a - 0xc0) + (b - 0x80)
  }

  function ThreeBytes(a: int, b: int, c: int): (r: int) {
    4096 * (a - 0xe0) + 64 * (b - 0x80) + (c - 0x80)
  }

  function FourBytes(a: int, b: int, c: int, d: int): (r: int) {
    262144 * (a - 0xf0) + 4096 * (b - 0x80) + 64 * (c - 0x80) + (d - 0x80)
  }

  lemma FourByteScalar(c: nat)
    requires 0xffff < c <= 0x10ffff
    ensures FourByteStart(0xf0 + c / 262144, 0x80 + c / 4096 % 64)
  {
  }

  lemma ThreeByteScalar(c: nat)
    requires IsScalar(c) && 0x7ff < c <= 0xffff
    ensures ThreeByteStart(0xe0 + c / 4096, 0x80 + c / 64 % 64)
  {
  }

  lemma ScalarStarts(c: nat, rest: Bytes)
    requires IsScalar(c)
    ensures CharLength(EncodeScalar(c) + rest) == |EncodeScalar(c)|
  {
    hide FourByteStart, ThreeByteStart;
    var s := EncodeScalar(c) + rest;
    if c > 0xffff {
      FourByteScalar(c);
      NotShorter(s[0], s[1]);
    } else if c > 0x7ff {
      ThreeByteScalar(c);
    }
  }

  lemma NotShorter(a: byte, b: byte)
    requires FourByteStart(a, b)
    ensures !ThreeByteStart(a, b) && a > 0xdf
  {
  }

  lemma {:induction false} EncodedScalarsAreWellFormed(cs: seq<nat>)
    requires forall c :: c in cs ==> IsScalar(c)
    ensures WellFormed(EncodeScalars(cs))
  {
    if cs != [] {
      EncodedScalarsAreWellFormed(cs[1..]);
      ScalarStarts(cs[0], EncodeScalars(cs[1..]));
      var s := EncodeScalars(cs);
      assert s[|EncodeScalar(cs[0])|..] == EncodeScalars(cs[1..]);
    }
  }

  lemma {:induction false} WellFormedIsEncodedScalars(s: Bytes) returns (cs: seq<nat>)
    requires WellFormed(s)
    ensures forall c :: c in cs ==> IsScalar(c)
    ensures s == EncodeScalars(cs)
  {
    if s == [] {
      cs := [];
    } else {
      var n := CharLength(s);
      var c := ScalarAt(s);
      var ds := WellFormedIsEncodedScalars(s[n..]);
      cs := [c] + ds;
      assert cs[1..] == ds;
      assert s == s[..n] + s[n..];
    }
  }

  /** The grammar accepts exactly the encodings of sequences of Unicode scalar values. */
  lemma WellFormedIffScalars(s: Bytes)
    ensures WellFormed(s) <==> exists cs: seq<nat> :: (forall c :: c in cs ==> IsScalar(c)) && s == EncodeScalars(cs)
  {
    if WellFormed(s) {
      var cs := WellFormedIsEncodedScalars(s);
    }
    forall cs: seq<nat> | (forall c :: c in cs ==> IsScalar(c)) && s == EncodeScalars(cs) ensures WellFormed(s) {
      EncodedScalarsAreWellFormed(cs);
    }
  }

  // ----- the validator

  /** Number of continuation bytes that `lead` announces. */
  function Continuations(lead: byte): (n: nat)
    requires 0xc2 <= lead <= 0xf4
    ensures 1 <= n <= 3
  {
    if lead <= 0xdf then 1 else if lead <= 0xef then 2 else 3
  }

  /** The lead's payload bits followed by six bits of each continuation byte. */
  function CodePoint(s: Bytes): (c: nat)
    requires s != [] && 0xc2 <= s[0] <= 0xf4
    decreases |s|
  {
    if |s| > 1 then 64 * CodePoint(s[..|s| - 1]) + s[|s| - 1] as int % 64
    else if s[0] <= 0xdf then s[0] % 32
    else if s[0] <= 0xef then s[0] % 16
    else s[0] % 8
  }

  predicate Overlong(c: nat, continuations: nat) {
    || (continuations == 1 && c < 0x80)
    || (continuations == 2 && c < 0x800)
    || (continuations == 3 && c < 0x10000)
  }

  lemma CodePointValue(s: Bytes)
    requires s != [] && 0xc2 <= s[0] <= 0xf4 && |s| == 1 + Continuations(s[0])
    requires forall i :: 1 <= i < |s| ==> Tail(s[i])
    ensures |s| == 2 ==> CodePoint(s) == TwoBytes(s[0], s[1])
    ensures |s| == 3 ==> CodePoint(s) == ThreeBytes(s[0], s[1], s[2])
    ensures |s| == 4 ==> CodePoint(s) == FourBytes(s[0], s[1], s[2], s[3])
  {
    CodePointLead(s[..1]);
    assert |s| > 2 ==> s[..2][..1] == s[..1];
    assert |s| > 3 ==> s[..3][..2][..1] == s[..1];
    if |s| == 2 {
      CodePointStep(s);
    } else if |s| == 3 {
      CodePointStep(s);
      CodePointStep(s[..2]);
    } else {
      CodePointStep(s);
      CodePointStep(s[..3]);
      CodePointStep(s[..3][..2]);
    }
  }

  lemma CodePointStep(s: Bytes)
    requires |s| > 1 && 0xc2 <= s[0] <= 0xf4 && Tail(s[|s| - 1])
    ensures CodePoint(s) == 64 * CodePoint(s[..|s| - 1]) + (s[|s| - 1] as int - 0x80)
  {
  }

  lemma CodePointLead(s: Bytes)
    requires |s| == 1 && 0xc2 <= s[0] <= 0xf4
    ensures CodePoint(s) == s[0] as int - (if s[0] <= 0xdf then 0xc0 else if s[0] <= 0xef then 0xe0 else 0xf0)
  {
  }

  lemma CodePointDecides(s: Bytes)
    requires s != [] && 0xc2 <= s[0] <= 0xf4 && |s| == 1 + Continuations(s[0])
    requires forall i :: 1 <= i < |s| ==> Tail(s[i])
    ensures !Overlong(CodePoint(s), |s| - 1) && IsScalar(CodePoint(s)) <==> CharLength(s) == |s|
  {
    CodePointValue(s);
  }

  /** A character is decided by as many bytes as its lead announces. */
  lemma CharLengthLocal(s: Bytes)
    requires s != [] && 0xc2 <= s[0] <= 0xf4
    ensures CharLength(s) > 0 ==> CharLength(s) == 1 + Continuations(s[0]) && forall i :: 1 <= i < CharLength(s) ==> Tail(s[i])
    ensures 1 + Continuations(s[0]) <= |s| ==> CharLength(s) == CharLength(s[..1 + Continuations(s[0])])
  {
  }

  /** The validator's inner loop: folds the announced continuation bytes into a code point. */
  method TakeContinuations(s: Bytes, continuations: nat) returns (codePoint: Option<nat>)
    requires s != [] && 0xc2 <= s[0] <= 0xf4 && continuations < |s|
    ensures codePoint.Some? <==> forall i :: 1 <= i <= continuations ==> Tail(s[i])
    ensures codePoint.Some? ==> codePoint.value == CodePoint(s[..1 + continuations])
  {
    var c := CodePoint(s[..1]);
    for count := 0 to continuations
      invariant c == CodePoint(s[..1 + count])
      invariant forall i :: 1 <= i <= count ==> Tail(s[i])
    {
      var next := s[1 + count];
      if next / 64 != 2 {
        assert !Tail(s[1 + count]);
        return None;
      }
      assert s[..2 + count][..1 + count] == s[..1 + count];
      c := 64 * c + next as int % 64;
    }
    return Some(c);
  }

  lemma CharLengthDecided(s: Bytes)
    requires s != [] && 0xc2 <= s[0] <= 0xf4
    ensures var n := 1 + Continuations(s[0]);
      CharLength(s) ==
        if && n <= |s|
           && (forall i :: 1 <= i < n ==> Tail(s[i]))
           && !Overlong(CodePoint(s[..n]), n - 1)
           && IsScalar(CodePoint(s[..n]))
        then n else 0
  {
    var n := 1 + Continuations(s[0]);
    CharLengthLocal(s);
    if n <= |s| && forall i :: 1 <= i < n ==> Tail(s[i]) {
      CodePointDecides(s[..n]);
    }
  }

  /** One round of the validator's outer loop: length of the character in front of `s`, 0 to reject. */
  method NextChar(s: Bytes) returns (n: nat)
    requires s != []
    ensures n == CharLength(s)
  {
    var lead := s[0];
    if lead <= 0x7f {
      return 1;
    }
    if lead < 0xc2 || lead > 0xf4 {
      return 0;
    }
    CharLengthDecided(s);
    var continuations := Continuations(lead);
    if |s| - 1 < continuations {
      return 0;
    }
    var codePoint := TakeContinuations(s, continuations);
    if codePoint.None? || Overlong(codePoint.value, continuations) || !IsScalar(codePoint.value) {
      return 0;
    }
    return 1 + continuations;
  }

  lemma SuffixOfSuffix(s: Bytes, start: nat, n: nat)
    requires start + n <= |s|
    ensures s[start..][n..] == s[start + n..]
  {
  }

  method ValidUtf8(bytes: Bytes) returns (ok: bool)
    ensures ok == WellFormed(bytes)
  {
    var index := 0;
    while index < |bytes|
      invariant 0 <= index <= |bytes|
      invariant WellFormed(bytes) == WellFormed(bytes[index..])
    {
      var n := NextChar(bytes[index..]);
      if n == 0 {
        return false;
      }
      SuffixOfSuffix(bytes, index, n);
      index := index + n;
    }
    return true;
  }
}
