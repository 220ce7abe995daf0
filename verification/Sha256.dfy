/** The helper's streaming SHA-256, over an arbitrary compression function. */
module Sha256 {
  import opened ByteStrings

  const BLOCK: nat := 64
  const LENGTH_AT: nat := 56

  /** Messages of `2^61` bytes have a bit length that no longer fits in 64 bits. */
  const MAX_MESSAGE: nat := 0x2000_0000_0000_0000

  type HashState = s: seq<u32> | |s| == 8 witness seq(8, _ => 0)
  type Block = b: Bytes | |b| == 64 witness seq(64, _ => 0)

  type Compression = (HashState, Block) -> HashState

  /** Section 5.3.3 of FIPS 180-4. */
  const INITIAL: HashState := [
    0x6a09e667, 0xbb67ae85, 0x3c6ef372, 0xa54ff53a, 0x510e527f, 0x9b05688c, 0x1f83d9ab, 0x5be0cd19
  ]

  /** How many zero bytes section 5.1.1 of FIPS 180-4 puts between the marker and the length. */
  function ZeroCount(length: nat): (k: nat)
    ensures k < BLOCK && (length + 1 + k + 8) % BLOCK == 0
  {
    (2 * BLOCK - 9 - length % BLOCK) % BLOCK
  }

  /** Section 5.1.1 of FIPS 180-4, in bytes; the length field keeps 64 bits. */
  function Padded(m: Bytes): (p: Bytes)
    ensures |p| % BLOCK == 0
  {
    m + [0x80] + Zeros(ZeroCount(|m|)) + BigEndian(8 * |m| % U64_LIMIT, 8)
  }

  /** Section 6.2.2 of FIPS 180-4: the blocks of `m` folded from the left. */
  function Fold(compress: Compression, state: HashState, m: Bytes): (r: HashState)
    requires |m| % BLOCK == 0
  {
    if m == [] then state
    else
      var n := |m| - BLOCK;
      compress(Fold(compress, state, m[..n]), m[n..])
  }

  function StateBytes(state: seq<u32>): (b: Bytes)
    ensures |b| == 4 * |state|
  {
    if state == [] then [] else BigEndian(state[0], 4) + StateBytes(state[1..])
  }

  /** The one-shot definition of the digest. */
  function Digest(compress: Compression, m: Bytes): (d: Bytes)
    ensures |d| == 32
  {
    StateBytes(Fold(compress, INITIAL, Padded(m)))
  }

  // ----- facts about the fold

  lemma FoldOneMore(compress: Compression, state: HashState, m: Bytes, b: Block)
    requires |m| % BLOCK == 0
    ensures |m + b| % BLOCK == 0
    ensures Fold(compress, state, m + b) == compress(Fold(compress, state, m), b)
  {
    assert (m + b)[..|m|] == m && (m + b)[|m|..] == b;
  }

  // ----- bytes of a number by shifting

  lemma {:induction false} MultiplesApart(d: nat, a: nat, b: nat)
    requires a < b
    ensures d * a + d <= d * b
  {
    assert d * b == d * (b - 1) + d;
    if a < b - 1 {
      MultiplesApart(d, a, b - 1);
    }
  }

  lemma QuotientIs(n: nat, d: nat, q: nat, r: nat)
    requires d > 0 && n == d * q + r && r < d
    ensures n / d == q
  {
    if n / d < q {
      MultiplesApart(d, n / d, q);
    } else if q < n / d {
      MultiplesApart(d, q, n / d);
    }
  }

  lemma DivideTwice(n: nat, b: nat)
    requires b > 0
    ensures n / 256 / b == n / (256 * b)
  {
    var q := n / 256;
    var s := q / b;
    var r := 256 * (q % b) + n % 256;
    assert q == b * s + q % b;
    assert (256 * b) * s == 256 * (b * s);
    QuotientIs(n, 256 * b, s, r);
  }

  /** Byte `k` from the right is the number shifted right by `8 * k` bits, cut to a byte. */
  lemma {:induction false} BigEndianByShift(n: nat, width: nat, k: nat)
    requires k < width
    ensures BigEndian(n, width)[width - 1 - k] == n / Pow256(k) % 256
  {
    if k > 0 {
      BigEndianByShift(n / 256, width - 1, k - 1);
      DivideTwice(n, Pow256(k - 1));
    }
  }

  // ----- how the padding falls into blocks

  /** The last, incomplete part of a message: what is still buffered. */
  function Tail(m: Bytes): (t: Bytes)
    ensures |t| == |m| % BLOCK
  {
    m[|m| - |m| % BLOCK..]
  }

  function Whole(m: Bytes): (w: Bytes)
    ensures |w| % BLOCK == 0 && w + Tail(m) == m
  {
    m[..|m| - |m| % BLOCK]
  }

  function LengthField(m: Bytes): (b: Bytes)
    ensures |b| == 8
  {
    BigEndian(8 * |m| % U64_LIMIT, 8)
  }

  lemma PaddedInOneBlock(m: Bytes)
    requires |m| % BLOCK < LENGTH_AT
    ensures Padded(m) == Whole(m) + (Tail(m) + [0x80] + Zeros(LENGTH_AT - 1 - |m| % BLOCK) + LengthField(m))
  {
    hide BigEndian;
    assert ZeroCount(|m|) == LENGTH_AT - 1 - |m| % BLOCK;
  }

  lemma PaddedInTwoBlocks(m: Bytes)
    requires |m| % BLOCK >= LENGTH_AT
    ensures |Whole(m) + (Tail(m) + [0x80] + Zeros(BLOCK - 1 - |m| % BLOCK))| % BLOCK == 0
    ensures Padded(m) == (Whole(m) + (Tail(m) + [0x80] + Zeros(BLOCK - 1 - |m| % BLOCK))) + (Zeros(LENGTH_AT) + LengthField(m))
  {
    hide BigEndian;
    assert ZeroCount(|m|) == BLOCK - 1 - |m| % BLOCK + LENGTH_AT;
    assert Zeros(ZeroCount(|m|)) == Zeros(BLOCK - 1 - |m| % BLOCK) + Zeros(LENGTH_AT);
  }

  lemma AbsorbInput(m: Bytes, more: Bytes)
    requires |m| % BLOCK + |more| < BLOCK
    ensures Whole(m + more) == Whole(m) && Tail(m + more) == Tail(m) + more
  {
    assert |m + more| % BLOCK == |m| % BLOCK + |more|;
  }

  lemma FillBlock(compress: Compression, m: Bytes, more: Bytes)
    requires |m| % BLOCK + |more| == BLOCK
    ensures Whole(m + more) == m + more && Tail(m + more) == []
    ensures Fold(compress, INITIAL, Whole(m + more)) == compress(Fold(compress, INITIAL, Whole(m)), Tail(m) + more)
  {
    assert |m + more| % BLOCK == 0;
    assert m + more == Whole(m) + (Tail(m) + more);
    FoldOneMore(compress, INITIAL, Whole(m), Tail(m) + more);
  }

  /** The byte counter after `n` bytes, which wraps around at 64 bits. */
  function Counter(n: nat): (c: u64) {
    n % U64_LIMIT
  }

  lemma CounterAdds(a: nat, b: nat)
    ensures (Counter(a) + b) % U64_LIMIT == Counter(a + b)
    ensures Counter(a) * 8 % U64_LIMIT == 8 * a % U64_LIMIT
  {
  }

  // ----- the streaming class

  method CopyInto(target: array<byte>, at: nat, source: Bytes)
    requires at + |source| <= target.Length
    modifies target
    ensures target[..] == old(target[..at]) + source + old(target[at + |source|..])
  {
    forall i | 0 <= i < |source| {
      target[at + i] := source[i];
    }
  }

  method FillZeros(target: array<byte>, from: nat, to: nat)
    requires from <= to <= target.Length
    modifies target
    ensures target[..] == old(target[..from]) + Zeros(to - from) + old(target[to..])
  {
    forall i | from <= i < to {
      target[i] := 0;
    }
  }

  class Hasher {
    const compress: Compression
    const block: array<byte>
    var state: HashState
    var used: nat
    var totalBytes: u64
    ghost var message: Bytes

    /** Everything but the byte counter reflects `m`: whole blocks folded, the rest buffered. */
    ghost predicate Absorbed(m: Bytes)
      reads this`used, this`state, block
      ensures Absorbed(m) ==> used < BLOCK
    {
      && block.Length == BLOCK
      && used == |m| % BLOCK
      && block[..used] == Tail(m)
      && state == Fold(compress, INITIAL, Whole(m))
    }

    ghost predicate Valid()
      reads this, block
    {
      Absorbed(message) && totalBytes == Counter(|message|)
    }

    constructor (compress: Compression)
      ensures Valid() && fresh(block)
      ensures message == [] && this.compress == compress
    {
      this.compress := compress;
      block := new byte[BLOCK](_ => 0);
      state := INITIAL;
      used := 0;
      totalBytes := 0;
      message := [];
    }

    method Update(input: Bytes)
      requires Valid()
      modifies this, block
      ensures Valid() && used < BLOCK
      ensures message == old(message) + input
    {
      hide Fold, Whole, Tail, Counter, Absorbed;
      ghost var m := message;
      CounterAdds(|m|, |input|);
      totalBytes := (totalBytes + |input|) % U64_LIMIT;
      var offset := 0;
      if used != 0 {
        var take := if BLOCK - used < |input| then BLOCK - used else |input|;
        Buffer(input[..take], m);
        offset := take;
      } else {
        assert m + input[..offset] == m;
      }
      offset := FoldBlocks(input, offset, m);
      if offset < |input| {
        BufferRest(input[offset..], m + input[..offset]);
        assert (m + input[..offset]) + input[offset..] == m + input;
      } else {
        assert input[..offset] == input;
      }
      message := m + input;
    }

    /** Folds whole blocks straight from the input, past the buffer. */
    method FoldBlocks(input: Bytes, start: nat, ghost m: Bytes) returns (offset: nat)
      requires start <= |input| && (used == 0 || start == |input|)
      requires Absorbed(m + input[..start])
      modifies this`state
      ensures start <= offset <= |input| < offset + BLOCK
      ensures used == 0 || offset == |input|
      ensures Absorbed(m + input[..offset])
    {
      hide Fold, Whole, Tail;
      offset := start;
      while |input| - offset >= BLOCK
        invariant start <= offset <= |input|
        invariant Absorbed(m + input[..offset])
      {
        ghost var before := m + input[..offset];
        var full: Block := input[offset..offset + BLOCK];
        FillBlock(compress, before, full);
        assert before + full == m + input[..offset + BLOCK];
        assert Tail(before) + full == full;
        state := compress(state, full);
        offset := offset + BLOCK;
      }
    }

    method BufferRest(rest: Bytes, ghost m: Bytes)
      requires Absorbed(m) && used == 0 && 0 < |rest| < BLOCK
      modifies this`used, block
      ensures Absorbed(m + rest)
    {
      hide Fold, Whole, Tail;
      AbsorbInput(m, rest);
      used := |rest|;
      CopyInto(block, 0, rest);
    }

    /** Appends to the buffered block and folds it in when it is full. */
    method Buffer(more: Bytes, ghost m: Bytes)
      requires Absorbed(m) && used + |more| <= BLOCK
      modifies this`used, this`state, block
      ensures Absorbed(m + more) && used == (old(used) + |more|) % BLOCK
    {
      hide Fold, Whole, Tail;
      CopyInto(block, used, more);
      used := used + |more|;
      if used == BLOCK {
        FillBlock(compress, m, more);
        assert block[..] == Tail(m) + more;
        state := compress(state, block[..]);
        used := 0;
      } else {
        AbsorbInput(m, more);
      }
    }

    /** Pads, folds in the last one or two blocks and writes the state out; the hasher is spent afterwards. */
    method Final() returns (digest: Bytes)
      requires Valid()
      modifies this, block
      ensures digest == Digest(compress, old(message))
    {
      hide Fold, Padded, StateBytes, BigEndian, Counter, Absorbed, Zeros;
      CounterAdds(|message|, 0);
      var bitLength := totalBytes * 8 % U64_LIMIT;
      ghost var before := Mark();
      FillZeros(block, used, LENGTH_AT);
      WriteLength(bitLength);
      FoldOneMore(compress, INITIAL, before, block[..]);
      assert Padded(old(message)) == before + block[..];
      state := compress(state, block[..]);
      digest := WriteState(state);
    }

    /** Buffers the marker byte, and folds the block in when the length no longer fits after it. */
    method Mark() returns (ghost before: Bytes)
      requires Valid()
      modifies this`used, this`state, block
      ensures block.Length == BLOCK && used <= LENGTH_AT
      ensures |before| % BLOCK == 0 && state == Fold(compress, INITIAL, before)
      ensures Padded(old(message)) == before + (block[..used] + Zeros(LENGTH_AT - used) + LengthField(old(message)))
    {
      hide Fold, Whole, Tail, Padded;
      before := Whole(message);
      block[used] := 0x80;
      used := used + 1;
      assert block[..used] == Tail(message) + [0x80];
      if used > LENGTH_AT {
        PaddedInTwoBlocks(message);
        FillZeros(block, used, BLOCK);
        assert block[..] == Tail(message) + [0x80] + Zeros(BLOCK - used);
        FoldOneMore(compress, INITIAL, before, block[..]);
        before := before + block[..];
        state := compress(state, block[..]);
        used := 0;
        assert block[..used] + Zeros(LENGTH_AT - used) == Zeros(LENGTH_AT);
      } else {
        PaddedInOneBlock(message);
      }
    }

    method WriteLength(bitLength: u64)
      requires block.Length == BLOCK
      modifies block
      ensures block[..] == old(block[..LENGTH_AT]) + BigEndian(bitLength, 8)
    {
      var index := 0;
      while index < 8
        invariant index <= 8
        invariant block[..LENGTH_AT] == old(block[..LENGTH_AT])
        invariant block[BLOCK - index..] == BigEndian(bitLength, 8)[8 - index..]
      {
        BigEndianByShift(bitLength, 8, index);
        ghost var written := block[BLOCK - index..];
        block[BLOCK - 1 - index] := bitLength / Pow256(index) % 256;
        assert block[BLOCK - 1 - index..] == [block[BLOCK - 1 - index]] + written;
        index := index + 1;
      }
      assert block[..] == block[..LENGTH_AT] + block[LENGTH_AT..];
    }
  }

  method WriteWord(word: u32) returns (output: Bytes)
    ensures output == BigEndian(word, 4)
  {
    output := [];
    while |output| < 4
      invariant |output| <= 4 && output == BigEndian(word, 4)[..|output|]
    {
      ghost var k := |output|;
      BigEndianByShift(word, 4, 3 - k);
      output := output + [word / Pow256(3 - |output|) % 256];
    }
  }

  method WriteState(state: HashState) returns (output: Bytes)
    ensures output == StateBytes(state)
  {
    output := [];
    var index := 0;
    while index < |state|
      invariant index <= |state|
      invariant output + StateBytes(state[index..]) == StateBytes(state)
    {
      var word := WriteWord(state[index]);
      assert state[index..][1..] == state[index + 1..];
      output := output + word;
      index := index + 1;
    }
  }

  function Concat(chunks: seq<Bytes>): (m: Bytes) {
    if chunks == [] then [] else Concat(chunks[..|chunks| - 1]) + chunks[|chunks| - 1]
  }

  /** However a message is split over updates, the digest is that of the whole message. */
  method HashChunks(compress: Compression, chunks: seq<Bytes>) returns (digest: Bytes)
    ensures digest == Digest(compress, Concat(chunks))
  {
    var hasher := new Hasher(compress);
    var i := 0;
    while i < |chunks|
      invariant i <= |chunks| && fresh(hasher) && fresh(hasher.block)
      invariant hasher.Valid() && hasher.compress == compress
      invariant hasher.message == Concat(chunks[..i])
    {
      hasher.Update(chunks[i]);
      assert chunks[..i + 1][..i] == chunks[..i];
      i := i + 1;
    }
    assert chunks[..i] == chunks;
    digest := hasher.Final();
  }

  // ----- what the padding is for

  /** The padding is the shortest that makes whole blocks. */
  lemma PaddingIsShortest(length: nat, k: nat)
    requires (length + 1 + k + 8) % BLOCK == 0
    ensures k >= ZeroCount(length)
  {
  }

  lemma LengthFieldExact(m: Bytes)
    requires |m| < MAX_MESSAGE
    ensures FromBigEndian(LengthField(m)) == 8 * |m|
  {
    hide BigEndian, FromBigEndian, Pow256;
    Pow256Values();
    FromToBigEndian(8 * |m|, 8);
  }

  lemma EndsInLengthField(m: Bytes)
    ensures |Padded(m)| >= 8 && Padded(m)[|Padded(m)| - 8..] == LengthField(m)
  {
    hide BigEndian, Zeros;
  }

  /** Messages of different lengths differ in their last padded block. */
  lemma LastBlocksDiffer(a: Bytes, b: Bytes)
    requires |a| < MAX_MESSAGE && |b| < MAX_MESSAGE && |a| != |b|
    ensures |Padded(a)| >= BLOCK && |Padded(b)| >= BLOCK
    ensures Padded(a)[|Padded(a)| - BLOCK..] != Padded(b)[|Padded(b)| - BLOCK..]
  {
    hide BigEndian, FromBigEndian, Padded;
    var p, q := Padded(a), Padded(b);
    EndsInLengthField(a);
    EndsInLengthField(b);
    LengthFieldExact(a);
    LengthFieldExact(b);
    assert p[|p| - BLOCK..][BLOCK - 8..] == LengthField(a);
    assert q[|q| - BLOCK..][BLOCK - 8..] == LengthField(b);
  }

  lemma {:induction false} StateBytesInjective(s: seq<u32>, t: seq<u32>)
    requires |s| == |t| && StateBytes(s) == StateBytes(t)
    ensures s == t
  {
    if s != [] {
      assert BigEndian(s[0], 4) == StateBytes(s)[..4] && BigEndian(t[0], 4) == StateBytes(t)[..4];
      assert StateBytes(s[1..]) == StateBytes(s)[4..] && StateBytes(t[1..]) == StateBytes(t)[4..];
      Pow256Values();
      BigEndianInjective(s[0], t[0], 4);
      StateBytesInjective(s[1..], t[1..]);
    }
  }

  /** What goes into the compression function when `p` has been folded up to byte `i`. */
  function Round(compress: Compression, p: Bytes, i: nat): (r: (HashState, Block))
    requires i % BLOCK == 0 && i + BLOCK <= |p|
  {
    (Fold(compress, INITIAL, p[..i]), p[i..i + BLOCK])
  }

  lemma FoldRound(compress: Compression, p: Bytes, i: nat)
    requires i % BLOCK == 0 && i + BLOCK <= |p|
    ensures Fold(compress, INITIAL, p[..i + BLOCK]) == compress(Round(compress, p, i).0, Round(compress, p, i).1)
  {
    assert p[..i + BLOCK] == p[..i] + p[i..i + BLOCK];
    FoldOneMore(compress, INITIAL, p[..i], p[i..i + BLOCK]);
  }

  /** Folding `p` and folding `q` meet in one value of the compression function, from different arguments. */
  ghost predicate RoundsCollide(compress: Compression, p: Bytes, i: nat, q: Bytes, j: nat) {
    && i % BLOCK == 0 && i + BLOCK <= |p|
    && j % BLOCK == 0 && j + BLOCK <= |q|
    && var (s, x) := Round(compress, p, i);
       var (t, y) := Round(compress, q, j);
       (s, x) != (t, y) && compress(s, x) == compress(t, y)
  }

  /** Different messages of as many blocks that fold to the same state collide in some round. */
  lemma {:induction false} FoldCollision(compress: Compression, p: Bytes, q: Bytes, n: nat) returns (i: nat)
    requires n % BLOCK == 0 && n <= |p| && n <= |q| && p[..n] != q[..n]
    requires Fold(compress, INITIAL, p[..n]) == Fold(compress, INITIAL, q[..n])
    ensures RoundsCollide(compress, p, i, q, i)
  {
    hide Fold;
    i := n - BLOCK;
    FoldRound(compress, p, i);
    FoldRound(compress, q, i);
    assert p[..n] == p[..i] + p[i..n] && q[..n] == q[..i] + q[i..n];
    if Round(compress, p, i) == Round(compress, q, i) {
      i := FoldCollision(compress, p, q, i);
    }
  }

  lemma SameLengthPadding(a: Bytes, b: Bytes)
    requires |a| == |b| && a != b
    ensures |Padded(a)| == |Padded(b)| && Padded(a) != Padded(b)
  {
    hide BigEndian, Zeros;
    assert Padded(a)[..|a|] == a && Padded(b)[..|b|] == b;
  }

  lemma WholeFold(compress: Compression, p: Bytes)
    requires |p| % BLOCK == 0
    ensures Fold(compress, INITIAL, p) == Fold(compress, INITIAL, p[..|p|])
  {
    assert p[..|p|] == p;
  }

  /** Two messages with one digest: computing them collides inside the compression function, in some round of each. */
  lemma DigestCollision(compress: Compression, a: Bytes, b: Bytes) returns (i: nat, j: nat)
    requires |a| < MAX_MESSAGE && |b| < MAX_MESSAGE && a != b
    requires Digest(compress, a) == Digest(compress, b)
    ensures RoundsCollide(compress, Padded(a), i, Padded(b), j)
  {
    hide Padded, StateBytes, Fold, Round;
    var p, q := Padded(a), Padded(b);
    StateBytesInjective(Fold(compress, INITIAL, p), Fold(compress, INITIAL, q));
    WholeFold(compress, p);
    WholeFold(compress, q);
    if |a| == |b| {
      SameLengthPadding(a, b);
      assert p[..|p|] == p && q[..|p|] == q;
      i := FoldCollision(compress, p, q, |p|);
      j := i;
    } else {
      LastBlocksDiffer(a, b);
      i, j := |p| - BLOCK, |q| - BLOCK;
      FoldRound(compress, p, i);
      FoldRound(compress, q, j);
      RoundBlock(compress, p, i);
      RoundBlock(compress, q, j);
    }
  }

  lemma RoundBlock(compress: Compression, p: Bytes, i: nat)
    requires i % BLOCK == 0 && i + BLOCK == |p|
    ensures Round(compress, p, i).1 == p[i..]
  {
  }
}
