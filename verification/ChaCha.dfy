/** The ChaCha keystream: 64-bit counter in words 12 and 13, 64-bit nonce in words 14 and 15. */
module ChaCha {
  import opened Bytes

  type Word = bv32
  /** `input` of chacha_ctx. */
  type Context = s: seq<u32> | |s| == 16 witness [0, 0, 0, 0, 0, 0, 0, 0, 0, 0, 0, 0, 0, 0, 0, 0]

  const BLOCKSZ: nat := 64
  const KEYSZ: nat := 32
  const IVSZ: nat := 8

  /** The quarter round of section 2.1 of RFC 8439. */
  function Quarter(a0: Word, b0: Word, c0: Word, d0: Word): (Word, Word, Word, Word) {
    var a1 := a0 + b0;
    var d1 := Rotl16(d0 ^ a1);
    var c1 := c0 + d1;
    var b1 := Rotl12(b0 ^ c1);
    var a2 := a1 + b1;
    var d2 := Rotl8(d1 ^ a2);
    var c2 := c1 + d2;
    var b2 := Rotl7(b1 ^ c2);
    (a2, b2, c2, d2)
  }

  function Rotl16(v: Word): Word { (v << 16) | (v >> 16) }

  function Rotl12(v: Word): Word { (v << 12) | (v >> 20) }

  function Rotl8(v: Word): Word { (v << 8) | (v >> 24) }

  function Rotl7(v: Word): Word { (v << 7) | (v >> 25) }

  /** The test vector of section 2.1.1 of RFC 8439. */
  lemma QuarterVector()
    ensures Quarter(0x11111111, 0x01020304, 0x9b8d6f43, 0x01234567) == (0xea2a92f4, 0xcb1cf8ce, 0x4581472e, 0x5881c4bb)
  {}

  // ---- One block ----

  function QuarterAt(x: seq<Word>, i: nat, j: nat, k: nat, l: nat): (y: seq<Word>)
    requires |x| == 16 && i < 16 && j < 16 && k < 16 && l < 16
    ensures |y| == 16
  {
    var q := Quarter(x[i], x[j], x[k], x[l]);
    x[i := q.0][j := q.1][k := q.2][l := q.3]
  }

  function ColumnRound(x: seq<Word>): (y: seq<Word>)
    requires |x| == 16
    ensures |y| == 16
  {
    QuarterAt(QuarterAt(QuarterAt(QuarterAt(x, 0, 4, 8, 12), 1, 5, 9, 13), 2, 6, 10, 14), 3, 7, 11, 15)
  }

  function DiagonalRound(x: seq<Word>): (y: seq<Word>)
    requires |x| == 16
    ensures |y| == 16
  {
    QuarterAt(QuarterAt(QuarterAt(QuarterAt(x, 0, 5, 10, 15), 1, 6, 11, 12), 2, 7, 8, 13), 3, 4, 9, 14)
  }

  function DoubleRound(x: seq<Word>): (y: seq<Word>)
    requires |x| == 16
    ensures |y| == 16
  {
    DiagonalRound(ColumnRound(x))
  }

  lemma QuarterAtIs(x: seq<Word>, i: nat, j: nat, k: nat, l: nat)
    requires |x| == 16 && i < 16 && j < 16 && k < 16 && l < 16
    requires i != j && i != k && i != l && j != k && j != l && k != l
    ensures var y := QuarterAt(x, i, j, k, l);
            && (y[i], y[j], y[k], y[l]) == Quarter(x[i], x[j], x[k], x[l])
            && forall p | 0 <= p < 16 && p != i && p != j && p != k && p != l :: y[p] == x[p]
  {
    hide Quarter;
  }

  /** With the words as a 4x4 matrix, a column round is one quarter round of each column (section 2.3 of RFC 8439). */
  lemma Columns(x: seq<Word>)
    requires |x| == 16
    ensures var y := ColumnRound(x);
            && (y[0], y[4], y[8], y[12]) == Quarter(x[0], x[4], x[8], x[12]) &&
               (y[1], y[5], y[9], y[13]) == Quarter(x[1], x[5], x[9], x[13])
            && (y[2], y[6], y[10], y[14]) == Quarter(x[2], x[6], x[10], x[14]) &&
               (y[3], y[7], y[11], y[15]) == Quarter(x[3], x[7], x[11], x[15])
  {
    hide Quarter, QuarterAt;
    var x1 := QuarterAt(x, 0, 4, 8, 12);
    var x2 := QuarterAt(x1, 1, 5, 9, 13);
    var x3 := QuarterAt(x2, 2, 6, 10, 14);
    QuarterAtIs(x, 0, 4, 8, 12);
    QuarterAtIs(x1, 1, 5, 9, 13);
    QuarterAtIs(x2, 2, 6, 10, 14);
    QuarterAtIs(x3, 3, 7, 11, 15);
  }

  /** A diagonal round is one quarter round of each diagonal, all from the same matrix. */
  lemma Diagonals(x: seq<Word>)
    requires |x| == 16
    ensures var y := DiagonalRound(x);
            && (y[0], y[5], y[10], y[15]) == Quarter(x[0], x[5], x[10], x[15]) &&
               (y[1], y[6], y[11], y[12]) == Quarter(x[1], x[6], x[11], x[12])
            && (y[2], y[7], y[8], y[13]) == Quarter(x[2], x[7], x[8], x[13]) &&
               (y[3], y[4], y[9], y[14]) == Quarter(x[3], x[4], x[9], x[14])
  {
    hide Quarter, QuarterAt;
    var x1 := QuarterAt(x, 0, 5, 10, 15);
    var x2 := QuarterAt(x1, 1, 6, 11, 12);
    var x3 := QuarterAt(x2, 2, 7, 8, 13);
    QuarterAtIs(x, 0, 5, 10, 15);
    QuarterAtIs(x1, 1, 6, 11, 12);
    QuarterAtIs(x2, 2, 7, 8, 13);
    QuarterAtIs(x3, 3, 4, 9, 14);
  }

  function Rounds(x: seq<Word>, n: nat): (y: seq<Word>)
    requires |x| == 16
    ensures |y| == 16
  {
    if n == 0 then x else DoubleRound(Rounds(x, n - 1))
  }

  function Words(j: Context): (x: seq<Word>)
    ensures |x| == 16
  {
    seq(16, i requires 0 <= i < 16 => j[i] as Word)
  }

  /** U32TO8_LITTLE. */
  function LittleBytes(w: Word): (s: seq<byte>)
    ensures |s| == 4
  {
    [(w & 0xff) as bv8 as int, ((w >> 8) & 0xff) as bv8 as int, ((w >> 16) & 0xff) as bv8 as int,
      (w >> 24) as bv8 as int]
  }

  /** PLUS. */
  function Plus(v: Word, w: Word): Word {
    v + w
  }

  /** Word `i` of the result of the rounds, with the input added back. */
  function AddBack(x: seq<Word>, j: Context, i: nat): (s: seq<byte>)
    requires |x| == 16 && i < 16
    ensures |s| == 4
  {
    LittleBytes(Plus(x[i], Words(j)[i]))
  }

  function OutWord(j: Context, i: nat): (s: seq<byte>)
    requires i < 16
    ensures |s| == 4
  {
    AddBack(Rounds(Words(j), 10), j, i)
  }

  function OutWords(j: Context, n: nat): (s: seq<byte>)
    requires n <= 16
    ensures |s| == 4 * n
  {
    if n == 0 then [] else OutWords(j, n - 1) + OutWord(j, n - 1)
  }

  /** The block of a context. */
  function Block(j: Context): (s: seq<byte>)
    ensures |s| == BLOCKSZ
  {
    OutWords(j, 16)
  }

  /** U8TO32_LITTLE on bit vectors. */
  function Joined(a: byte, b: byte, c: byte, d: byte): Word {
    (a as bv8) as Word | ((b as bv8) as Word << 8) | ((c as bv8) as Word << 16) | ((d as bv8) as Word << 24)
  }

  function JoinedAt(s: seq<byte>, at: nat): Word
    requires at + 4 <= |s|
  {
    Joined(s[at], s[at + 1], s[at + 2], s[at + 3])
  }

  lemma Pieces(w: Word)
    ensures ((w & 0xff) as bv8) as Word | ((((w >> 8) & 0xff) as bv8) as Word << 8) |
            ((((w >> 16) & 0xff) as bv8) as Word << 16) | (((w >> 24) as bv8) as Word << 24) == w
  {}

  lemma SameByte(v: bv8)
    ensures (v as int) as bv8 == v
  {}

  lemma JoinedIs(w: Word)
    ensures JoinedAt(LittleBytes(w), 0) == w
  {
    SameByte((w & 0xff) as bv8);
    SameByte(((w >> 8) & 0xff) as bv8);
    SameByte(((w >> 16) & 0xff) as bv8);
    SameByte((w >> 24) as bv8);
    Pieces(w);
  }

  lemma {:induction false} OutWordsAt(j: Context, n: nat, i: nat)
    requires i < n <= 16
    ensures OutWords(j, n)[4 * i..4 * i + 4] == OutWord(j, i)
  {
    hide OutWord;
    if i < n - 1 {
      OutWordsAt(j, n - 1, i);
      assert OutWords(j, n)[4 * i..4 * i + 4] == OutWords(j, n - 1)[4 * i..4 * i + 4];
    }
  }

  lemma AddBackWord(x: seq<Word>, y: seq<Word>, j: Context, i: nat)
    requires |x| == 16 && i < 16 && y == Words(j)
    ensures AddBack(x, j, i) == LittleBytes(Plus(x[i], y[i]))
  {
    hide LittleBytes, Words, Plus;
  }

  /** Four bytes of the block, as a word, are the word after ten double rounds plus the input word. */
  lemma BlockWord(j: Context, x: seq<Word>, i: nat)
    requires i < 16 && |x| == 16 && x == Rounds(Words(j), 10)
    ensures JoinedAt(Block(j), 4 * i) == x[i] + Words(j)[i]
  {
    hide Rounds, OutWords, AddBack, Words, Joined;
    OutWordsAt(j, 16, i);
    AddBackWord(x, Words(j), j, i);
    JoinedIs(Plus(x[i], Words(j)[i]));
    var b, s := Block(j), OutWord(j, i);
    assert s == b[4 * i..4 * i + 4];
    assert s[0] == b[4 * i] && s[1] == b[4 * i + 1] && s[2] == b[4 * i + 2] && s[3] == b[4 * i + 3];
  }

  /** A double round is a column round and then a diagonal round; there are as many as asked for. */
  lemma {:induction false} RoundsFrom(x: seq<Word>, n: nat)
    requires |x| == 16
    ensures Rounds(x, 0) == x && Rounds(x, n + 1) == Rounds(DiagonalRound(ColumnRound(x)), n)
  {
    hide ColumnRound, DiagonalRound;
    if n > 0 {
      RoundsFrom(x, n - 1);
    }
  }

  // ---- The counter ----

  function Counter(j: Context): nat {
    j[12] as int + 0x1_0000_0000 * j[13] as int
  }

  /** PLUSONE on word 12, carried into word 13. */
  function Bump(j: Context): Context {
    var lo := (j[12] as int + 1) % 0x1_0000_0000;
    if lo == 0 then j[12 := lo][13 := (j[13] as int + 1) % 0x1_0000_0000] else j[12 := lo]
  }

  function BumpN(j: Context, n: nat): Context {
    if n == 0 then j else Bump(BumpN(j, n - 1))
  }

  lemma BumpCounts(j: Context)
    ensures Counter(Bump(j)) == (Counter(j) + 1) % 0x1_0000_0000_0000_0000
    ensures forall i | 0 <= i < 16 && i != 12 && i != 13 :: Bump(j)[i] == j[i]
  {}

  lemma ModStep(a: nat)
    ensures (a % 0x1_0000_0000_0000_0000 + 1) % 0x1_0000_0000_0000_0000 == (a + 1) % 0x1_0000_0000_0000_0000
  {
    var q, r := a / 0x1_0000_0000_0000_0000, a % 0x1_0000_0000_0000_0000;
    assert a + 1 == 0x1_0000_0000_0000_0000 * q + (r + 1);
    if r + 1 == 0x1_0000_0000_0000_0000 {
      assert a + 1 == 0x1_0000_0000_0000_0000 * (q + 1);
    }
  }

  /** `n` blocks on, the 64-bit counter is `n` larger (modulo 2^64) and every other word the same. */
  lemma {:induction false} BumpNCounts(j: Context, n: nat)
    ensures Counter(BumpN(j, n)) == (Counter(j) + n) % 0x1_0000_0000_0000_0000
    ensures forall i | 0 <= i < 16 && i != 12 && i != 13 :: BumpN(j, n)[i] == j[i]
  {
    if n == 0 {
      assert Counter(j) < 0x1_0000_0000_0000_0000;
    } else {
      hide Bump, Counter;
      BumpNCounts(j, n - 1);
      BumpCounts(BumpN(j, n - 1));
      ModStep(Counter(j) + n - 1);
    }
  }

  // ---- The keystream ----

  /** The first `n` bytes of the blocks for consecutive counters. */
  function Keystream(j: Context, n: nat): (s: seq<byte>)
    ensures |s| == n
  {
    seq(n, i requires 0 <= i < n => Block(BumpN(j, i / BLOCKSZ))[i % BLOCKSZ])
  }

  function BlocksFor(n: nat): nat {
    (n + BLOCKSZ - 1) / BLOCKSZ
  }

  lemma InBlock(k: nat, i: nat)
    requires i < BLOCKSZ
    ensures (BLOCKSZ * k + i) / BLOCKSZ == k && (BLOCKSZ * k + i) % BLOCKSZ == i
  {}

  /** The stream goes on with the block for the next counter. */
  lemma KeystreamNext(j: Context, k: nat, m: nat)
    requires m <= BLOCKSZ
    ensures Keystream(j, BLOCKSZ * k + m) == Keystream(j, BLOCKSZ * k) + Block(BumpN(j, k))[..m]
  {
    hide Block, BumpN;
    var s, t := Keystream(j, BLOCKSZ * k + m), Keystream(j, BLOCKSZ * k) + Block(BumpN(j, k))[..m];
    forall i | 0 <= i < |s|
      ensures s[i] == t[i]
    {
      if i >= BLOCKSZ * k {
        InBlock(k, i - BLOCKSZ * k);
      }
    }
  }

  /** The 20 rounds of one block. */
  method RunRounds(j: Context) returns (x: seq<Word>)
    ensures x == Rounds(Words(j), 10)
  {
    hide DoubleRound, Words;
    x := Words(j);
    var i := 20;
    while i > 0
      invariant 0 <= i <= 20 && i % 2 == 0 && |x| == 16
      invariant x == Rounds(Words(j), 10 - i / 2)
    {
      x := DoubleRound(x);
      i := i - 2;
    }
  }

  lemma SpliceMore(s: seq<byte>, at: nat, a: seq<byte>, b: seq<byte>)
    requires at + |a| + |b| <= |s|
    ensures Splice(Splice(s, at, a), at + |a|, b) == Splice(s, at, a + b)
  {}

  /** One pass of the block loop: 64 bytes of keystream go to `c`. */
  method StoreBlock(j: Context, c: array<byte>, at: nat)
    requires at + BLOCKSZ <= c.Length
    modifies c
    ensures c[..] == Splice(old(c[..]), at, Block(j))
  {
    hide Rounds, Words, AddBack, Splice;
    ghost var c0 := c[..];
    SpliceNothing(c0, at);
    var x := RunRounds(j);
    for i := 0 to 16
      invariant c[..] == Splice(c0, at, OutWords(j, i))
    {
      var little := AddBack(x, j, i);
      assert little == OutWord(j, i);
      SpliceMore(c0, at, OutWords(j, i), little);
      PutBytes(c, at + 4 * i, little);
    }
  }

  lemma SpliceNothing(s: seq<byte>, at: nat)
    requires at <= |s|
    ensures Splice(s, at, []) == s
  {}

  lemma LastBlock(bytes: nat, k: nat, left: nat)
    requires BLOCKSZ * k + left == bytes && 0 < left <= BLOCKSZ
    ensures BlocksFor(bytes) == k + 1
  {}

  /** Storing words 12 and 13 is enough: a step of the counter changes no other word. */
  lemma OnlyCounterWords(j: Context, k: nat)
    ensures j[12 := BumpN(j, k)[12]][13 := BumpN(j, k)[13]] == BumpN(j, k)
  {
    hide BumpN, Counter;
    BumpNCounts(j, k);
  }

  /** `m` bytes of a block behind the `at` bytes of keystream already there. */
  lemma StreamGrows(c0: seq<byte>, c: seq<byte>, d: seq<byte>, at: nat, r: seq<byte>, s: seq<byte>)
    requires at + |r| <= |c| == |c0| && d == Splice(c, at, r)
    requires c[..at] == s && c[at..] == c0[at..]
    ensures d[..at + |r|] == s + r && d[at + |r|..] == c0[at + |r|..]
  {
    assert c[at..][|r|..] == c[at + |r|..] && c0[at..][|r|..] == c0[at + |r|..];
  }

  /** _chacha_encrypt_bytes; the message `m` (which may be `c`) only ever goes through `tmp`. */
  method EncryptBytes(input: array<u32>, m: array<byte>, c: array<byte>, bytes: u32)
    requires input.Length == 16 && bytes <= m.Length && bytes <= c.Length
    modifies input, c
    ensures input[..] == BumpN(old(input[..]), BlocksFor(bytes))
    ensures c[..bytes] == Keystream(old(input[..]), bytes) && c[bytes..] == old(c[bytes..])
  {
    hide Block, Bump, Keystream, Splice, BlocksFor;
    if bytes == 0 {
      NoBytes(input[..], c[..]);
      return;
    }
    var j: Context := input[..];
    ghost var j0, c0 := j, c[..];
    NoBytes(j0, c0);
    var left: nat := bytes;
    var at: nat := 0;
    ghost var k: nat := 0;
    while true
      invariant 0 < left && at + left == bytes && at == BLOCKSZ * k
      invariant j == BumpN(j0, k) && input[..] == j0
      invariant c[..][..at] == Keystream(j0, at) && c[..][at..] == c0[at..]
      decreases left
    {
      ghost var before := c[..];
      ghost var r := Block(j)[..if left < BLOCKSZ then left else BLOCKSZ];
      KeystreamNext(j0, k, |r|);
      if left < BLOCKSZ {
        LastBytes(m, j, c, at, left);
      } else {
        StoreBlock(j, c, at);
        assert Block(j)[..BLOCKSZ] == Block(j);
      }
      StreamGrows(c0, before, c[..], at, r, Keystream(j0, at));
      j := Bump(j);
      if left <= BLOCKSZ {
        LastBlock(bytes, k, left);
        OnlyCounterWords(j0, k + 1);
        input[12], input[13] := j[12], j[13];
        assert input[..] == j0[12 := j[12]][13 := j[13]];
        return;
      }
      left := left - BLOCKSZ;
      at := at + BLOCKSZ;
      k := k + 1;
    }
  }

  lemma NoBytes(j: Context, c: seq<byte>)
    ensures Keystream(j, 0) == [] && BlocksFor(0) == 0 && c[..0] == [] && c[0..] == c
  {}

  /** The short last block: computed in `tmp`, of which `left` bytes are copied. */
  method LastBytes(m: array<byte>, j: Context, c: array<byte>, at: nat, left: nat)
    requires left <= m.Length && at + left <= c.Length && left < BLOCKSZ
    modifies c
    ensures c[..] == Splice(old(c[..]), at, Block(j)[..left])
  {
    hide Block;
    var tmp := new byte[BLOCKSZ](_ => 0);
    for i := 0 to left
      invariant c[..] == old(c[..])
    {
      tmp[i] := m[i];
    }
    ghost var t0 := tmp[..];
    StoreBlock(j, tmp, 0);
    assert Splice(t0, 0, Block(j)) == Block(j);
    assert tmp[..left] == tmp[..][..left];
    PutBytes(c, at, tmp[..left]);
  }

  // ---- Key and nonce setup ----

  // "expand 32-byte k"
  const SIGMA: seq<byte> := [101, 120, 112, 97, 110, 100, 32, 51, 50, 45, 98, 121, 116, 101, 32, 107]

  function SetupWord(seed: seq<byte>, i: nat): u32
    requires |seed| == KEYSZ + IVSZ && i < 16
  {
    if i < 4 then Read4(SIGMA, 4 * i)
    else if i < 12 then Read4(seed, 4 * (i - 4))
    else if i < 14 then 0
    else Read4(seed, KEYSZ + 4 * (i - 14))
  }

  /** The context after _chacha_keysetup with a 256-bit key and _chacha_ivsetup: constants, key, counter 0, nonce. */
  function Setup(seed: seq<byte>): (j: Context)
    requires |seed| == KEYSZ + IVSZ
    ensures Counter(j) == 0
  {
    seq(16, i requires 0 <= i < 16 => SetupWord(seed, i))
  }

  /** U8TO32_LITTLE. */
  method LoadWord(k: array<byte>, at: nat) returns (w: u32)
    requires at + 4 <= KEYSZ + IVSZ <= k.Length
    ensures w == Read4(k[..KEYSZ + IVSZ], at)
  {
    w := Join4(k[at], k[at + 1], k[at + 2], k[at + 3]);
  }

  /** _chacha_keysetup and _chacha_ivsetup. */
  method KeySetup(input: array<u32>, k: array<byte>)
    requires input.Length == 16 && k.Length >= KEYSZ + IVSZ
    modifies input
    ensures input[..] == Setup(k[..KEYSZ + IVSZ])
  {
    hide Read4;
    ghost var seed := k[..KEYSZ + IVSZ];
    for i := 4 to 12
      invariant forall w | 4 <= w < i :: input[w] == Read4(seed, 4 * (w - 4))
    {
      input[i] := LoadWord(k, 4 * (i - 4));
    }
    for i := 0 to 4
      invariant forall w | 0 <= w < i :: input[w] == Read4(SIGMA, 4 * w)
      invariant forall w | 4 <= w < 12 :: input[w] == Read4(seed, 4 * (w - 4))
    {
      input[i] := Read4(SIGMA, 4 * i);
    }
    input[12] := 0;
    input[13] := 0;
    input[14] := LoadWord(k, KEYSZ);
    input[15] := LoadWord(k, KEYSZ + 4);
    assert forall i | 0 <= i < 16 :: input[..][i] == SetupWord(seed, i);
  }
}
