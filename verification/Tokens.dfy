/** Token sequences as fixed-size hashed blocks. The 64-bit hash is a parameter; collision freedom
    is asked for only on the byte strings that are actually hashed. */
module Tokens {

  import opened Options

  const TWO_32: nat := 0x1_0000_0000
  const TWO_64: nat := 0x1_0000_0000_0000_0000

  type Byte = b: int | 0 <= b < 256
  type Token = t: int | 0 <= t < TWO_32
  type Hash = h: int | 0 <= h < TWO_64
  type Hasher = seq<Byte> -> Hash

  // ---------- little-endian bytes

  function Bytes(n: nat, k: nat): (bs: seq<Byte>)
    ensures |bs| == k
  {
    if k == 0 then [] else [n % 256] + Bytes(n / 256, k - 1)
  }

  function Pow256(k: nat): nat { if k == 0 then 1 else 256 * Pow256(k - 1) }

  function Value(bs: seq<Byte>): nat { if bs == [] then 0 else bs[0] + 256 * Value(bs[1..]) }

  lemma {:induction false} ValueOfBytes(n: nat, k: nat)
    requires n < Pow256(k)
    ensures Value(Bytes(n, k)) == n
  {
    if k > 0 {
      assert n / 256 < Pow256(k - 1);
      ValueOfBytes(n / 256, k - 1);
      assert Bytes(n, k)[1..] == Bytes(n / 256, k - 1);
    }
  }

  lemma {:induction false} BytesOfValue(bs: seq<Byte>)
    ensures Value(bs) < Pow256(|bs|) && Bytes(Value(bs), |bs|) == bs
  {
    if bs != [] {
      var n := Value(bs[1..]);
      BytesOfValue(bs[1..]);
      assert (bs[0] + 256 * n) % 256 == bs[0] && (bs[0] + 256 * n) / 256 == n;
      assert Value(bs) == bs[0] + 256 * n;
      assert [bs[0]] + bs[1..] == bs;
    }
  }

  lemma Widths()
    ensures Pow256(4) == TWO_32 && Pow256(8) == TWO_64
  {
    assert Pow256(2) == 65536;
    assert Pow256(4) == 256 * 256 * Pow256(2);
    assert Pow256(6) == 256 * 256 * Pow256(4);
    assert Pow256(8) == 256 * 256 * Pow256(6);
  }

  function TokenBytes(ts: seq<Token>): (bs: seq<Byte>)
    ensures |bs| == 4 * |ts|
  {
    if ts == [] then [] else Bytes(ts[0], 4) + TokenBytes(ts[1..])
  }

  function PairBytes(parent: Hash, block: Hash): (bs: seq<Byte>)
    ensures |bs| == 16
  {
    Bytes(parent, 8) + Bytes(block, 8)
  }

  lemma {:induction false} TokenBytesInjective(a: seq<Token>, b: seq<Token>)
    requires TokenBytes(a) == TokenBytes(b)
    ensures a == b
  {
    assert |a| == |b|;
    if a != [] {
      var x, y := TokenBytes(a), TokenBytes(b);
      assert x[..4] == Bytes(a[0], 4) && y[..4] == Bytes(b[0], 4);
      assert x[4..] == TokenBytes(a[1..]) && y[4..] == TokenBytes(b[1..]);
      Widths();
      ValueOfBytes(a[0], 4);
      ValueOfBytes(b[0], 4);
      TokenBytesInjective(a[1..], b[1..]);
    }
  }

  lemma PairBytesInjective(p: Hash, x: Hash, q: Hash, y: Hash)
    requires PairBytes(p, x) == PairBytes(q, y)
    ensures p == q && x == y
  {
    var a, b := PairBytes(p, x), PairBytes(q, y);
    assert a[..8] == Bytes(p, 8) && b[..8] == Bytes(q, 8);
    assert a[8..] == Bytes(x, 8) && b[8..] == Bytes(y, 8);
    Widths();
    ValueOfBytes(p, 8);
    ValueOfBytes(q, 8);
    ValueOfBytes(x, 8);
    ValueOfBytes(y, 8);
  }

  // ---------- blocks

  datatype TokenBlock = TokenBlock(tokens: seq<Token>, blockHash: Hash, seqHash: Hash, parent: Option<Hash>)

  datatype PartialBlock = PartialBlock(tokens: seq<Token>, blockSize: nat, parent: Option<Hash>)

  datatype TokenSequence = TokenSequence(blocks: seq<TokenBlock>, current: PartialBlock)

  function ChainHash(hash: Hasher, parent: Hash, block: Hash): Hash { hash(PairBytes(parent, block)) }

  /** A block as splitting makes it: the first block's sequence hash is its block hash. */
  function SplitBlock(hash: Hasher, tokens: seq<Token>, parent: Option<Hash>): TokenBlock {
    var bh := hash(TokenBytes(tokens));
    TokenBlock(tokens, bh, if parent.None? then bh else ChainHash(hash, parent.value, bh), parent)
  }

  /** A block as pushing makes it: a first block chains onto zero. */
  function PushBlock(hash: Hasher, tokens: seq<Token>, parent: Option<Hash>): TokenBlock {
    var bh := hash(TokenBytes(tokens));
    TokenBlock(tokens, bh, ChainHash(hash, if parent.None? then 0 else parent.value, bh), parent)
  }

  function SplitFrom(hash: Hasher, tokens: seq<Token>, blockSize: nat, parent: Option<Hash>): TokenSequence
    decreases |tokens|
  {
    if blockSize == 0 || |tokens| < blockSize then TokenSequence([], PartialBlock(tokens, blockSize, parent))
    else
      var b := SplitBlock(hash, tokens[..blockSize], parent);
      var rest := SplitFrom(hash, tokens[blockSize..], blockSize, Some(b.seqHash));
      rest.(blocks := [b] + rest.blocks)
  }

  function Split(hash: Hasher, tokens: seq<Token>, blockSize: nat): TokenSequence {
    SplitFrom(hash, tokens, blockSize, None)
  }

  function Push(hash: Hasher, s: TokenSequence, t: Token): TokenSequence {
    var c := s.current.(tokens := s.current.tokens + [t]);
    if |c.tokens| != c.blockSize then s.(current := c)
    else
      var b := PushBlock(hash, c.tokens, c.parent);
      TokenSequence(s.blocks + [b], PartialBlock([], c.blockSize, Some(b.seqHash)))
  }

  function PushAll(hash: Hasher, s: TokenSequence, ts: seq<Token>): TokenSequence
    decreases ts
  {
    if ts == [] then s else PushAll(hash, Push(hash, s, ts[0]), ts[1..])
  }

  lemma FullBlocks(n: nat, blockSize: nat, i: nat)
    requires 0 < blockSize
    ensures i < n / blockSize <==> i * blockSize + blockSize <= n
    ensures (i + 1) * blockSize == i * blockSize + blockSize
  {
    var q := n / blockSize;
    assert n == q * blockSize + n % blockSize;
    if i < q {
      assert (i + 1) * blockSize <= q * blockSize;
    } else {
      assert i * blockSize >= q * blockSize;
    }
  }

  function WithBlocks(blocks: seq<TokenBlock>, rest: TokenSequence): TokenSequence {
    rest.(blocks := blocks + rest.blocks)
  }

  /** `split_tokens` as its loop over the full blocks. */
  method SplitTokens(hash: Hasher, tokens: seq<Token>, blockSize: nat) returns (s: TokenSequence)
    ensures s == Split(hash, tokens, blockSize)
  {
    hide SplitBlock, SplitFrom;
    var blocks: seq<TokenBlock> := [];
    var parent: Option<Hash> := None;
    var full := if blockSize == 0 then 0 else |tokens| / blockSize;
    if blockSize > 0 { FullBlocks(|tokens|, blockSize, 0); }
    var i, start := 0, 0;
    assert tokens[0..] == tokens;
    while i < full
      invariant 0 <= i && start == i * blockSize <= |tokens|
      invariant blockSize > 0 ==> (i < full <==> start + blockSize <= |tokens|)
      invariant Split(hash, tokens, blockSize) == WithBlocks(blocks, SplitFrom(hash, tokens[start..], blockSize, parent))
    {
      var b := SplitBlock(hash, tokens[start..start + blockSize], parent);
      SplitStep(hash, tokens, start, blockSize, parent);
      ghost var rest := SplitFrom(hash, tokens[start + blockSize..], blockSize, Some(b.seqHash));
      assert (blocks + [b]) + rest.blocks == blocks + ([b] + rest.blocks);
      blocks, parent := blocks + [b], Some(b.seqHash);
      FullBlocks(|tokens|, blockSize, i);
      FullBlocks(|tokens|, blockSize, i + 1);
      i, start := i + 1, start + blockSize;
    }
    SplitRest(hash, tokens[start..], blockSize, parent);
    s := TokenSequence(blocks, PartialBlock(tokens[start..], blockSize, parent));
  }

  lemma SplitRest(hash: Hasher, tokens: seq<Token>, blockSize: nat, parent: Option<Hash>)
    requires blockSize == 0 || |tokens| < blockSize
    ensures SplitFrom(hash, tokens, blockSize, parent) == TokenSequence([], PartialBlock(tokens, blockSize, parent))
  {
  }

  lemma SplitStep(hash: Hasher, tokens: seq<Token>, start: nat, blockSize: nat, parent: Option<Hash>)
    requires 0 < blockSize && start + blockSize <= |tokens|
    ensures var b := SplitBlock(hash, tokens[start..start + blockSize], parent);
            SplitFrom(hash, tokens[start..], blockSize, parent) ==
            WithBlocks([b], SplitFrom(hash, tokens[start + blockSize..], blockSize, Some(b.seqHash)))
  {
    hide SplitBlock;
    var rest := tokens[start..];
    assert rest[..blockSize] == tokens[start..start + blockSize] && rest[blockSize..] == tokens[start + blockSize..];
  }

  // ---------- pushing is splitting

  lemma {:induction false} PushIsSplitFrom(hash: Hasher, tokens: seq<Token>, blockSize: nat, parent: Option<Hash>,
                                           t: Token)
    requires 0 < blockSize && (parent.Some? || blockSize <= |tokens|)
    ensures Push(hash, SplitFrom(hash, tokens, blockSize, parent), t) == SplitFrom(hash, tokens + [t], blockSize, parent)
    decreases |tokens|
  {
    var all := tokens + [t];
    if |tokens| < blockSize {
      if |all| == blockSize {
        assert all[..blockSize] == all && all[blockSize..] == [];
        var b := SplitBlock(hash, all, parent);
        assert SplitFrom(hash, [], blockSize, Some(b.seqHash)).blocks == [];
        assert [b] + [] == [] + [b];
      }
    } else {
      assert all[..blockSize] == tokens[..blockSize] && all[blockSize..] == tokens[blockSize..] + [t];
      var b := SplitBlock(hash, tokens[..blockSize], parent);
      var rest := SplitFrom(hash, tokens[blockSize..], blockSize, Some(b.seqHash));
      PushIsSplitFrom(hash, tokens[blockSize..], blockSize, Some(b.seqHash), t);
      var x := PushBlock(hash, rest.current.tokens + [t], rest.current.parent);
      assert [b] + (rest.blocks + [x]) == ([b] + rest.blocks) + [x];
    }
  }

  /** Pushing S onto a sequence that already has a block gives what splitting T + S gives. */
  lemma {:induction false} PushIsSplit(hash: Hasher, tokens: seq<Token>, blockSize: nat, more: seq<Token>)
    requires 0 < blockSize <= |tokens|
    ensures PushAll(hash, Split(hash, tokens, blockSize), more) == Split(hash, tokens + more, blockSize)
    decreases more
  {
    if more == [] {
      assert tokens + more == tokens;
    } else {
      PushIsSplitFrom(hash, tokens, blockSize, None, more[0]);
      PushIsSplit(hash, tokens + [more[0]], blockSize, more[1..]);
      assert tokens + [more[0]] + more[1..] == tokens + more;
    }
  }

  lemma {:induction false} PushShort(hash: Hasher, tokens: seq<Token>, blockSize: nat, parent: Option<Hash>,
                                     more: seq<Token>)
    requires |tokens| + |more| < blockSize
    ensures PushAll(hash, TokenSequence([], PartialBlock(tokens, blockSize, parent)), more)
         == TokenSequence([], PartialBlock(tokens + more, blockSize, parent))
    decreases more
  {
    if more == [] {
      assert tokens + more == tokens;
    } else {
      PushShort(hash, tokens + [more[0]], blockSize, parent, more[1..]);
      assert tokens + [more[0]] + more[1..] == tokens + more;
    }
  }

  lemma {:induction false} PushKeepsBlocks(hash: Hasher, s: TokenSequence, more: seq<Token>)
    ensures s.blocks <= PushAll(hash, s, more).blocks
    decreases more
  {
    if more != [] { PushKeepsBlocks(hash, Push(hash, s, more[0]), more[1..]); }
  }

  lemma {:induction false} PushAllSplit(hash: Hasher, s: TokenSequence, a: seq<Token>, b: seq<Token>)
    ensures PushAll(hash, s, a + b) == PushAll(hash, PushAll(hash, s, a), b)
    decreases a
  {
    if a == [] {
      assert a + b == b;
    } else {
      assert (a + b)[1..] == a[1..] + b;
      PushAllSplit(hash, Push(hash, s, a[0]), a[1..], b);
    }
  }

  /** A first block grown by pushing has a chained hash, a split one has not: with a hash that tells
      the two byte strings apart, pushing agrees with splitting exactly when there already was a
      block or there is still none. */
  lemma PushIsSplitIff(hash: Hasher, tokens: seq<Token>, blockSize: nat, more: seq<Token>)
    requires 0 < blockSize
    requires |tokens + more| >= blockSize ==>
               var first := TokenBytes((tokens + more)[..blockSize]);
               hash(first) != ChainHash(hash, 0, hash(first))
    ensures PushAll(hash, Split(hash, tokens, blockSize), more) == Split(hash, tokens + more, blockSize)
       <==> blockSize <= |tokens| || |tokens| + |more| < blockSize
  {
    if blockSize <= |tokens| {
      PushIsSplit(hash, tokens, blockSize, more);
    } else if |tokens| + |more| < blockSize {
      PushShort(hash, tokens, blockSize, None, more);
    } else {
      var n := blockSize - |tokens|;
      var a, b := more[..n - 1], more[n..];
      assert more == a + ([more[n - 1]] + b);
      var s0 := Split(hash, tokens, blockSize);
      PushAllSplit(hash, s0, a, [more[n - 1]] + b);
      PushShort(hash, tokens, blockSize, None, a);
      var s1 := PushAll(hash, s0, a);
      assert ([more[n - 1]] + b)[1..] == b;
      var s2 := Push(hash, s1, more[n - 1]);
      PushKeepsBlocks(hash, s2, b);
      assert tokens + a + [more[n - 1]] == (tokens + more)[..blockSize];
      assert PushAll(hash, s0, more).blocks[0] == s2.blocks[0] == PushBlock(hash, (tokens + more)[..blockSize], None);
      assert Split(hash, tokens + more, blockSize).blocks[0] == SplitBlock(hash, (tokens + more)[..blockSize], None);
    }
  }

  // ---------- sequence hashes identify prefixes

  lemma Shift(tokens: seq<Token>, n: nat, j: nat, k: nat)
    requires n + k <= |tokens| && j <= k
    ensures tokens[n..][j..k] == tokens[n + j..n + k]
  {
  }

  /** Block `i` covers its slice of the tokens and chains onto the block before it. */
  lemma {:induction false} SplitAt(hash: Hasher, tokens: seq<Token>, blockSize: nat, parent: Option<Hash>, i: nat)
    requires 0 < blockSize && i < |SplitFrom(hash, tokens, blockSize, parent).blocks|
    ensures var bs := SplitFrom(hash, tokens, blockSize, parent).blocks;
            && i * blockSize + blockSize <= |tokens|
            && bs[i] == SplitBlock(hash, tokens[i * blockSize..i * blockSize + blockSize], if i == 0 then parent else Some(bs[i - 1].seqHash))
    decreases |tokens|
  {
    hide SplitBlock;
    var b := SplitBlock(hash, tokens[..blockSize], parent);
    if i == 0 {
      assert tokens[0..blockSize] == tokens[..blockSize];
    } else {
      var j, k := (i - 1) * blockSize, i * blockSize;
      assert j + blockSize == k;
      SplitAt(hash, tokens[blockSize..], blockSize, Some(b.seqHash), i - 1);
      Shift(tokens, blockSize, j, j + blockSize);
    }
  }

  /** The byte strings hashed for the blocks of a split. */
  ghost function Hashed(bs: seq<TokenBlock>): set<seq<Byte>> {
    (set i | 0 <= i < |bs| :: TokenBytes(bs[i].tokens))
    + (set i | 0 <= i < |bs| && bs[i].parent.Some? :: PairBytes(bs[i].parent.value, bs[i].blockHash))
  }

  ghost predicate NoCollision(hash: Hasher, s: set<seq<Byte>>) {
    forall x, y :: x in s && y in s && hash(x) == hash(y) ==> x == y
  }

  /** What was hashed for the sequence hash of block `i`. */
  function KeyBytes(bs: seq<TokenBlock>, i: nat): seq<Byte>
    requires i < |bs|
  {
    if i == 0 then TokenBytes(bs[0].tokens) else PairBytes(bs[i - 1].seqHash, bs[i].blockHash)
  }

  lemma KeyBytesHashed(hash: Hasher, tokens: seq<Token>, blockSize: nat, bs: seq<TokenBlock>, i: nat, n: nat)
    requires 0 < blockSize && bs == Split(hash, tokens, blockSize).blocks && i < |bs| && n == i * blockSize
    ensures KeyBytes(bs, i) in Hashed(bs) && hash(KeyBytes(bs, i)) == bs[i].seqHash
    ensures TokenBytes(bs[i].tokens) in Hashed(bs) && hash(TokenBytes(bs[i].tokens)) == bs[i].blockHash
    ensures n + blockSize <= |tokens| && |bs[i].tokens| == blockSize && tokens[..n + blockSize] == tokens[..n] + bs[i].tokens
  {
    SplitAt(hash, tokens, blockSize, None, i);
    assert tokens[..n + blockSize] == tokens[..n] + tokens[n..n + blockSize];
  }

  /** Equal sequence hashes identify equal token prefixes, at equal depths for every block size, and at any
      depths whenever the block size is not four. `x` and `y` are the blocks, `n` is where block `i` starts. */
  lemma {:induction false} SeqHashIdentifiesPrefix(hash: Hasher, a: seq<Token>, b: seq<Token>, blockSize: nat,
                                                   x: seq<TokenBlock>, y: seq<TokenBlock>, i: nat, j: nat, n: nat)
    requires 0 < blockSize && (i == j || blockSize != 4)
    requires x == Split(hash, a, blockSize).blocks && y == Split(hash, b, blockSize).blocks
    requires i < |x| && j < |y| && n == i * blockSize && NoCollision(hash, Hashed(x) + Hashed(y))
    requires x[i].seqHash == y[j].seqHash
    ensures i == j && n + blockSize <= |a| && n + blockSize <= |b| && a[..n + blockSize] == b[..n + blockSize]
    decreases i
  {
    hide SplitFrom, TokenBytes, Bytes, Hashed;
    KeyBytesHashed(hash, a, blockSize, x, i, n);
    KeyBytesHashed(hash, b, blockSize, y, j, j * blockSize);
    assert KeyBytes(x, i) == KeyBytes(y, j);
    if i > 0 && j > 0 {
      PairBytesInjective(x[i - 1].seqHash, x[i].blockHash, y[j - 1].seqHash, y[j].blockHash);
      assert (i - 1) * blockSize == n - blockSize;
      SeqHashIdentifiesPrefix(hash, a, b, blockSize, x, y, i - 1, j - 1, n - blockSize);
    }
    TokenBytesInjective(x[i].tokens, y[j].tokens);
  }

  function FourTokens(bs: seq<Byte>): seq<Token>
    requires |bs| == 16
  {
    BytesOfValue(bs[..4]);
    BytesOfValue(bs[4..8]);
    BytesOfValue(bs[8..12]);
    BytesOfValue(bs[12..]);
    Widths();
    [Value(bs[..4]), Value(bs[4..8]), Value(bs[8..12]), Value(bs[12..])]
  }

  /** With blocks of four tokens, a block hash and a chained hash read the same sixteen bytes: every
      sequence of at least two blocks shares its second sequence hash with a one-block sequence,
      whatever the hash function. */
  lemma BlocksOfFourClash(hash: Hasher, a: seq<Token>)
    requires |a| >= 8
    ensures |Split(hash, a, 4).blocks| >= 2
    ensures exists b: seq<Token> :: |b| == 4 && Split(hash, b, 4).blocks != [] && Split(hash, b, 4).blocks[0].seqHash == Split(hash, a, 4).blocks[1].seqHash
  {
    var x := Split(hash, a, 4).blocks;
    var rest := SplitFrom(hash, a[4..], 4, Some(x[0].seqHash));
    assert x == [SplitBlock(hash, a[..4], None)] + rest.blocks;
    assert rest.blocks[0] == SplitBlock(hash, a[4..][..4], Some(x[0].seqHash));
    var bytes := PairBytes(x[0].seqHash, x[1].blockHash);
    var b := FourTokens(bytes);
    assert TokenBytes(b) == bytes by { FourTokenBytes(bytes); }
    assert b[..4] == b;
    assert Split(hash, b, 4).blocks[0] == SplitBlock(hash, b, None);
  }

  lemma FourTokenBytes(bs: seq<Byte>)
    requires |bs| == 16
    ensures TokenBytes(FourTokens(bs)) == bs
  {
    hide Value, Pow256;
    var ts := FourTokens(bs);
    BytesOfValue(bs[..4]);
    BytesOfValue(bs[4..8]);
    BytesOfValue(bs[8..12]);
    BytesOfValue(bs[12..]);
    assert ts[1..] == [ts[1], ts[2], ts[3]] && ts[1..][1..] == [ts[2], ts[3]] && ts[1..][1..][1..] == [ts[3]];
    assert [ts[3]][1..] == [];
    hide Bytes;
    var a, b, c, d := Bytes(ts[0], 4), Bytes(ts[1], 4), Bytes(ts[2], 4), Bytes(ts[3], 4);
    assert TokenBytes([ts[3]]) == d + [] == d;
    assert TokenBytes([ts[2], ts[3]]) == c + d;
    assert TokenBytes([ts[1], ts[2], ts[3]]) == b + (c + d);
    assert TokenBytes(ts) == a + (b + (c + d));
    assert bs == bs[..4] + (bs[4..8] + (bs[8..12] + bs[12..]));
  }
}
