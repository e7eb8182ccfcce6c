/** The first bytes of a generator, from the state that calloc() gives to the bytes that are handed out. */
module Arc4Vector {
  import opened Bytes
  import opened ChaCha
  import opened ChaChaVector
  import opened Arc4Random

  /** The state that was just allocated. */
  const FRESH_STATE: Gen := Gen(seq(16, _ => 0), [])

  function Blank(): (x: seq<Word>)
    ensures |x| == 16
  {
    seq(16, _ => 0)
  }

  lemma QuarterOfNothing()
    ensures Quarter(0, 0, 0, 0) == (0, 0, 0, 0)
  {}

  lemma BlankRound()
    ensures DoubleRound(Blank()) == Blank()
  {
    hide Quarter, ColumnRound, DiagonalRound;
    QuarterOfNothing();
    ColumnsTo(Blank(), Blank());
    DiagonalsTo(Blank(), Blank());
  }

  lemma {:induction false} BlankRounds(n: nat)
    ensures Rounds(Blank(), n) == Blank()
  {
    hide DoubleRound, Blank;
    if n > 0 {
      BlankRounds(n - 1);
      BlankRound();
    }
  }

  lemma NothingAdded()
    ensures LittleBytes(Plus(0, 0)) == [0, 0, 0, 0]
  {}

  lemma BlankWords()
    ensures Words(FRESH_STATE.ctx) == Blank()
  {}

  lemma BlankWord(j: Context, i: nat)
    requires i < 16 && Words(j) == Blank()
    ensures OutWord(j, i) == [0, 0, 0, 0]
  {
    hide Rounds, LittleBytes, Words, AddBack, Plus;
    BlankRounds(10);
    AddBackWord(Blank(), Blank(), j, i);
    NothingAdded();
  }

  lemma {:induction false} BlankOut(j: Context, n: nat)
    requires n <= 16 && Words(j) == Blank()
    ensures OutWords(j, n) == Zeros(4 * n)
  {
    hide OutWord, Words;
    if n > 0 {
      BlankOut(j, n - 1);
      BlankWord(j, n - 1);
    }
  }

  lemma KeystreamStart(j: Context, n: nat, m: nat)
    requires m <= n && m <= BLOCKSZ
    ensures Keystream(j, n)[..m] == Block(j)[..m]
  {
    hide Block;
    assert BumpN(j, 0) == j;
  }

  /** The first stirring takes the entropy itself as key and nonce. */
  lemma FirstStir(entropy: seq<byte>)
    requires |entropy| == SEEDSZ
    ensures Stirred(FRESH_STATE, entropy) == Gen(Setup(entropy), [])
  {
    hide Keystream, Setup, OutWords, Rekeyed, Words;
    BlankWords();
    BlankOut(FRESH_STATE.ctx, 16);
    KeystreamStart(FRESH_STATE.ctx, RSBUFSZ, SEEDSZ);
    assert Zeros(BLOCKSZ)[..SEEDSZ] == Zeros(SEEDSZ);
    RekeyOverZeros(FRESH_STATE, entropy);
    assert entropy[..SEEDSZ] == entropy;
  }

  /** With entropy of zero, the first 24 bytes handed out are the rest of the first block behind key and nonce. */
  lemma FirstBytes()
    ensures Take(Stirred(FRESH_STATE, Zeros(SEEDSZ)), 24).0 == ROW2[8..] + ROW3
  {
    hide Keystream, Setup, Block, Rekeyed, Take;
    FirstStir(Zeros(SEEDSZ));
    BlockVector();
    LastRows(Block(ZERO_SEED), ROW0, ROW1, ROW2, ROW3);
    FromFirstBlock(ZERO_SEED);
  }

  lemma FromFirstBlock(j: Context)
    ensures Take(Gen(j, []), 24).0 == Block(j)[..BLOCKSZ][SEEDSZ..]
  {
    hide Keystream, Block, Rekeyed, Take;
    RekeyPlainly(Gen(j, []), []);
    KeystreamStart(j, RSBUFSZ, BLOCKSZ);
    TakeFresh(Gen(j, []), 24);
    var k := Keystream(j, RSBUFSZ);
    assert k[SEEDSZ..][..24] == k[..BLOCKSZ][SEEDSZ..];
  }

  lemma LastRows(b: seq<byte>, r0: seq<byte>, r1: seq<byte>, r2: seq<byte>, r3: seq<byte>)
    requires |r0| == |r1| == |r2| == |r3| == 16 && b == r0 + r1 + r2 + r3
    ensures b[..BLOCKSZ][SEEDSZ..] == r2[8..] + r3
  {}

  lemma TakeFresh(g: Gen, n: nat)
    requires g.pending == [] && 0 < n <= FRESH
    ensures Take(g, n).0 == Rekeyed(g, []).pending[..n]
  {
    hide Rekeyed;
    var r := Rekeyed(g, []);
    assert Take(Gen(r.ctx, r.pending[n..]), 0).0 == [];
    assert r.pending[..n] + [] == r.pending[..n];
  }
}
