/** Public identifiers as base64url text of 16 bytes, as section 5 of RFC 4648 has it, and which texts are one. */
module Identifiers {
  import opened ByteStrings
  import opened EventChain
  import opened BrokerStore

  type Sextet = n: int | 0 <= n < 64

  function Char(d: Sextet): (c: byte)
    ensures Base64Url(c)
  {
    if d < 26 then 'A' as int + d
    else if d < 52 then 'a' as int + d - 26
    else if d < 62 then '0' as int + d - 52
    else if d == 62 then '-' as int
    else '_' as int
  }

  function Digit(c: byte): (d: Sextet)
    requires Base64Url(c)
    ensures Char(d) == c
  {
    if 'A' as int <= c <= 'Z' as int then c - 'A' as int
    else if 'a' as int <= c <= 'z' as int then c - 'a' as int + 26
    else if '0' as int <= c <= '9' as int then c - '0' as int + 52
    else if c == '-' as int then 62
    else 63
  }

  predicate IsText(t: Bytes) {
    forall i :: 0 <= i < |t| ==> Base64Url(t[i])
  }

  /** The low `6 * width` bits of `n`, six to a character, most significant first. */
  function Text(n: nat, width: nat): (t: Bytes)
    ensures |t| == width && IsText(t)
  {
    if width == 0 then [] else Text(n / 64, width - 1) + [Char(n % 64)]
  }

  function ValueOf(t: Bytes): (n: nat)
    requires IsText(t)
  {
    if t == [] then 0 else 64 * ValueOf(t[..|t| - 1]) + Digit(t[|t| - 1])
  }

  function Pow64(n: nat): (p: nat)
    ensures p > 0
  {
    if n == 0 then 1 else 64 * Pow64(n - 1)
  }

  lemma {:induction false} TextOfValue(t: Bytes)
    requires IsText(t)
    ensures ValueOf(t) < Pow64(|t|) && Text(ValueOf(t), |t|) == t
  {
    if t != [] {
      TextOfValue(t[..|t| - 1]);
    }
  }

  lemma DigitOfChar(d: Sextet)
    ensures Digit(Char(d)) == d
  {
  }

  lemma {:induction false} ValueOfText(n: nat, width: nat)
    requires n < Pow64(width)
    ensures ValueOf(Text(n, width)) == n
  {
    if width > 0 {
      ValueOfText(n / 64, width - 1);
      DigitOfChar(n % 64);
      assert Text(n, width)[..width - 1] == Text(n / 64, width - 1);
    }
  }

  /** The encoding of 16 bytes: their 128 bits, and four zero bits to fill the last character. */
  function Encoded(b: Bytes): (id: PublicId)
    requires |b| == 16
  {
    Text(16 * FromBigEndian(b), 22)
  }

  lemma Powers()
    ensures 16 * Pow256(16) == Pow64(22)
  {
    hide Pow256, Pow64;
    Pow256Doubles(8);
    Pow256Values();
    Pow64Adds(11);
    assert Pow64(11) == 0x4_0000_0000_0000_0000 by {
      Pow64Small();
    }
  }

  lemma {:induction false} Pow256Adds(m: nat, n: nat)
    ensures Pow256(m + n) == Pow256(m) * Pow256(n)
  {
    if m > 0 {
      Pow256Adds(m - 1, n);
      assert Pow256(m + n) == 256 * (Pow256(m - 1) * Pow256(n));
    }
  }

  lemma Pow256Doubles(m: nat)
    ensures Pow256(2 * m) == Pow256(m) * Pow256(m)
  {
    Pow256Adds(m, m);
  }

  lemma {:induction false} Pow64Splits(m: nat, n: nat)
    ensures Pow64(m + n) == Pow64(m) * Pow64(n)
  {
    if m > 0 {
      Pow64Splits(m - 1, n);
      assert Pow64(m + n) == 64 * (Pow64(m - 1) * Pow64(n));
    }
  }

  lemma Pow64Adds(m: nat)
    ensures Pow64(2 * m) == Pow64(m) * Pow64(m)
  {
    Pow64Splits(m, m);
  }

  lemma Pow64Small()
    ensures Pow64(11) == 0x4_0000_0000_0000_0000
  {
    assert Pow64(3) == 0x4_0000;
    assert Pow64(5) == 0x4000_0000;
    assert Pow64(7) == 0x400_0000_0000;
    assert Pow64(9) == 0x40_0000_0000_0000;
  }

  /** The low four bits of an identifier are those of its last character. */
  lemma SpareBits(id: PublicId)
    ensures ValueOf(id) % 16 == Digit(id[21]) % 16
    ensures Digit(id[21]) % 16 == 0 <==> Decodes(id)
  {
    assert ValueOf(id) == 16 * (4 * ValueOf(id[..21])) + Digit(id[21]);
  }

  /** An identifier decodes exactly when it is the encoding of 16 bytes; then it is the encoding of just those. */
  lemma DecodesExactly(id: PublicId)
    ensures Decodes(id) <==> exists b: Bytes :: |b| == 16 && Encoded(b) == id
    ensures forall b: Bytes, c: Bytes :: |b| == 16 && |c| == 16 && Encoded(b) == id == Encoded(c) ==> b == c
  {
    hide Decodes, Text, ValueOf, Digit, FromBigEndian, BigEndian, Pow64, Pow256;
    Powers();
    SpareBits(id);
    TextOfValue(id);
    if Decodes(id) {
      var n := ValueOf(id) / 16;
      assert 16 * n == ValueOf(id);
      FromToBigEndian(n, 16);
      assert Encoded(BigEndian(n, 16)) == id;
    }
    forall b: Bytes | |b| == 16 && Encoded(b) == id ensures 16 * FromBigEndian(b) == ValueOf(id) && b == BigEndian(FromBigEndian(b), 16) {
      ToFromBigEndian(b);
      ValueOfText(16 * FromBigEndian(b), 22);
    }
  }
}
