/** The arc4random state: a buffer of keystream with rekeying, erasure and reseeding. */
module Arc4Random {
  import opened Bytes
  import opened ChaCha

  const RSBUFSZ: nat := 16 * BLOCKSZ
  const SEEDSZ: nat := KEYSZ + IVSZ
  const FRESH: nat := RSBUFSZ - SEEDSZ
  const RESEED: nat := 1600000
  const SIZE_LIMIT: nat := 0x1_0000_0000_0000_0000

  /** The generator behind the buffer: its context and the keystream bytes not yet handed out. */
  datatype Gen = Gen(ctx: Context, pending: seq<byte>)

  function Exp2(n: nat): (r: nat)
    ensures r > 0
  {
    if n == 0 then 1 else 2 * Exp2(n - 1)
  }

  /** The bitwise exclusive or of the low `n` bits. */
  function XorBits(a: nat, b: nat, n: nat): (r: nat)
    ensures r < Exp2(n)
  {
    if n == 0 then 0 else (if a % 2 == b % 2 then 0 else 1) + 2 * XorBits(a / 2, b / 2, n - 1)
  }

  lemma EightBits()
    ensures Exp2(8) == 0x100
  {
    assert Exp2(2) == 4 && Exp2(4) == 16 && Exp2(6) == 64;
  }

  function XorByte(a: byte, b: byte): byte {
    EightBits();
    XorBits(a, b, 8)
  }

  /** User data mixed into the first bytes of fresh keystream, as far as key and nonce reach. */
  function Mix(k: seq<byte>, dat: seq<byte>): (r: seq<byte>)
    ensures |r| == |k|
  {
    seq(|k|, i requires 0 <= i < |k| => if i < |dat| && i < SEEDSZ then XorByte(k[i], dat[i]) else k[i])
  }

  /** A rekey: the head of 1024 bytes of keystream becomes the next key, the rest is for output. */
  function Rekeyed(g: Gen, dat: seq<byte>): (r: Gen)
    ensures |r.pending| == FRESH
  {
    var k := Mix(Keystream(g.ctx, RSBUFSZ), dat);
    Gen(Setup(k[..SEEDSZ]), k[SEEDSZ..])
  }

  function Stirred(g: Gen, rnd: seq<byte>): Gen {
    Gen(Rekeyed(g, rnd).ctx, [])
  }

  /** `n` bytes of output and the generator after them, as the copy loop produces them. */
  function Take(g: Gen, n: nat): (r: (seq<byte>, Gen))
    ensures |r.0| == n
    decreases n, |g.pending| == 0
  {
    if n == 0 then ([], g)
    else if g.pending == [] then Take(Rekeyed(g, []), n)
    else
      var m := if n < |g.pending| then n else |g.pending|;
      var rest := Take(Gen(g.ctx, g.pending[m..]), n - m);
      (g.pending[..m] + rest.0, rest.1)
  }

  // ---- The infinite stream ----

  /** The context `k` rekeys later. */
  function Epoch(ctx: Context, k: nat): Context {
    if k == 0 then ctx else Rekeyed(Gen(Epoch(ctx, k - 1), []), []).ctx
  }

  /** Byte `i` of the stream that the generator stands for: what is pending, then 984 bytes of every epoch. */
  function Stream(g: Gen, i: nat): byte {
    if i < |g.pending| then g.pending[i]
    else
      var j := i - |g.pending|;
      Keystream(Epoch(g.ctx, j / FRESH), RSBUFSZ)[SEEDSZ + j % FRESH]
  }

  lemma {:induction false} EpochShift(ctx: Context, k: nat)
    ensures Epoch(Rekeyed(Gen(ctx, []), []).ctx, k) == Epoch(ctx, k + 1)
  {
    hide Rekeyed;
    if k > 0 {
      EpochShift(ctx, k - 1);
    } else {
      assert Epoch(ctx, 0) == ctx;
    }
  }

  lemma MixNothing(k: seq<byte>)
    ensures Mix(k, []) == k
  {}

  lemma RekeyIgnoresPending(g: Gen, dat: seq<byte>)
    ensures Rekeyed(g, dat) == Rekeyed(Gen(g.ctx, []), dat)
  {}

  lemma DivStep(j: nat)
    requires j >= FRESH
    ensures (j - FRESH) / FRESH + 1 == j / FRESH && (j - FRESH) % FRESH == j % FRESH
  {}

  /** Rekeying an empty buffer does not move the stream. */
  lemma StreamOverRekey(g: Gen, i: nat)
    requires g.pending == []
    ensures Stream(Rekeyed(g, []), i) == Stream(g, i)
  {
    hide Keystream, Setup, Epoch;
    MixNothing(Keystream(g.ctx, RSBUFSZ));
    EpochStart(g.ctx);
    if i >= FRESH {
      DivStep(i);
      EpochShift(g.ctx, (i - FRESH) / FRESH);
    }
  }

  lemma EpochStart(ctx: Context)
    ensures Epoch(ctx, 0) == ctx
  {}

  /** The output is the next `n` bytes of the stream, and the new state stands for the stream after them. */
  lemma {:induction false} TakeIsStream(g: Gen, n: nat, i: nat)
    ensures i < n ==> Take(g, n).0[i] == Stream(g, i)
    ensures Stream(Take(g, n).1, i) == Stream(g, n + i)
    decreases n, |g.pending| == 0
  {
    hide Rekeyed, Stream;
    if n == 0 {
    } else if g.pending == [] {
      TakeIsStream(Rekeyed(g, []), n, i);
      StreamOverRekey(g, i);
      StreamOverRekey(g, n + i);
    } else {
      var m := if n < |g.pending| then n else |g.pending|;
      var rest := Gen(g.ctx, g.pending[m..]);
      TakeIsStream(rest, n - m, i);
      DropPending(g, m, n - m + i);
      if i < m {
        DropPending(g, 0, i);
      } else if i < n {
        TakeIsStream(rest, n - m, i - m);
        DropPending(g, m, i - m);
      }
    }
  }

  lemma DropPending(g: Gen, m: nat, i: nat)
    requires m <= |g.pending|
    ensures Stream(Gen(g.ctx, g.pending[m..]), i) == Stream(g, m + i)
    ensures i < |g.pending| ==> Stream(g, i) == g.pending[i]
  {
    hide Keystream, Epoch;
  }

  /** Asking twice is asking once for the sum: the same bytes and the same final state. */
  lemma {:induction false} TakeSplit(g: Gen, a: nat, b: nat)
    ensures var x, y := Take(g, a), Take(Take(g, a).1, b);
            Take(g, a + b) == (x.0 + y.0, y.1)
    decreases a, |g.pending| == 0
  {
    hide Rekeyed;
    if a == 0 {
      assert [] + Take(g, b).0 == Take(g, b).0;
    } else if g.pending == [] {
      TakeSplit(Rekeyed(g, []), a, b);
    } else if a < |g.pending| {
      TakeInside(g, a, b);
    } else {
      var m := |g.pending|;
      var rest := Gen(g.ctx, g.pending[m..]);
      TakeSplit(rest, a - m, b);
      var x, y := Take(rest, a - m), Take(Take(rest, a - m).1, b);
      assert g.pending[..m] + (x.0 + y.0) == g.pending[..m] + x.0 + y.0;
    }
  }

  /** A first request that leaves bytes in the buffer. */
  lemma TakeInside(g: Gen, a: nat, b: nat)
    requires 0 < a < |g.pending|
    ensures var x, y := Take(g, a), Take(Take(g, a).1, b);
            Take(g, a + b) == (x.0 + y.0, y.1)
  {
    hide Rekeyed;
    var p := g.pending;
    var rest := Gen(g.ctx, p[a..]);
    assert Take(rest, 0) == ([], rest) && p[..a] + [] == p[..a];
    assert Take(g, a) == (p[..a], rest);
    if b == 0 {
      assert p[..a] + [] == p[..a];
    } else {
      var m := if a + b < |p| then a + b else |p|;
      assert p[a..][m - a..] == p[m..] && p[a..][..m - a] == p[a..m] && p[..a] + p[a..m] == p[..m];
      var last := Take(Gen(g.ctx, p[m..]), a + b - m);
      assert p[..a] + (p[a..m] + last.0) == p[..m] + last.0;
    }
  }

  // ---- Reseeding ----

  /** _rs_stir_if_needed on the byte budget: the subtraction is of 64-bit unsigned numbers. */
  function Budget(count: nat, len: nat): (c: nat) {
    var left := if count <= len then RESEED else count;
    (left - len) % SIZE_LIMIT
  }

  /** The budget never exceeds its start exactly as long as no request is larger than it: such a request wraps. */
  lemma BudgetBounded(count: nat, len: nat)
    requires count <= 1600000 && len < SIZE_LIMIT
    ensures Budget(count, len) <= 1600000 <==> len <= 1600000
    ensures len <= 1600000 ==> Budget(count, len) + len <= 1600000
  {}

  /** One byte more than the start leaves nearly 2^64. */
  lemma BudgetWraps()
    ensures Budget(1600000, 1600001) == 0xffff_ffff_ffff_ffff
  {}

  /** Budget after requests from a generator that was stirred `served` bytes ago. */
  function Spent(served: nat): nat
    requires served <= 1600000
  {
    1600000 - served
  }

  /** A reseed is due exactly with the request that would bring the bytes since the last one to 1600000. */
  lemma ReseedDue(g: Gen, served: nat, len: nat, rnd: seq<byte>)
    requires served <= 1600000 && len <= 1600000
    ensures served + len < 1600000 ==>
              Reseeded(g, Spent(served), len, rnd) == g && Budget(Spent(served), len) == Spent(served + len)
    ensures served + len >= 1600000 ==>
              Reseeded(g, Spent(served), len, rnd) == Stirred(g, rnd) && Budget(Spent(served), len) == Spent(len)
  {
    hide Stirred;
  }

  /** Two requests that need no reseed spend what their sum spends. */
  lemma BudgetSplit(count: nat, a: nat, b: nat)
    requires a + b < count < SIZE_LIMIT
    ensures Budget(count, a) > b && Budget(Budget(count, a), b) == Budget(count, a + b)
  {}

  function Reseeded(g: Gen, count: nat, len: nat, rnd: seq<byte>): Gen {
    if count <= len then Stirred(g, rnd) else g
  }

  /** Two requests that need no reseed are one request for the sum: bytes, generator and budget. */
  lemma TwoRequestsAsOne(g: Gen, count: nat, a: nat, b: nat, e: seq<byte>, e1: seq<byte>, e2: seq<byte>)
    requires a + b < count < SIZE_LIMIT
    ensures var x := Take(Reseeded(g, count, a, e1), a);
            var y := Take(Reseeded(x.1, Budget(count, a), b, e2), b);
            && Take(Reseeded(g, count, a + b, e), a + b) == (x.0 + y.0, y.1)
            && Budget(count, a + b) == Budget(Budget(count, a), b)
  {
    hide Take, Stirred;
    TakeSplit(g, a, b);
    BudgetSplit(count, a, b);
  }

  // ---- 32-bit draws ----

  /** _rs_random_u32: fewer than four pending bytes are dropped for fresh ones. */
  function Draw(g: Gen): (r: (u32, Gen)) {
    var f := if |g.pending| < 4 then Rekeyed(g, []) else g;
    (Read4(f.pending, 0), Gen(f.ctx, f.pending[4..]))
  }

  /** Four pending bytes are used, least significant first; three are dropped. */
  lemma DrawsLast(ctx: Context)
    ensures Draw(Gen(ctx, [1, 2, 3, 4])) == (0x0403_0201, Gen(ctx, []))
    ensures Draw(Gen(ctx, [1, 2, 3])) == Draw(Gen(ctx, []))
  {
    hide Rekeyed;
    RekeyIgnoresPending(Gen(ctx, [1, 2, 3]), []);
    assert [1, 2, 3, 4][4..] == [];
    assert Join4(1, 2, 3, 4) == 0x0403_0201;
  }

  function DrawSkip(g: Gen): nat {
    if |g.pending| < 4 then |g.pending| else 0
  }

  /** A draw is four consecutive bytes of the stream, behind the dropped ones. */
  lemma DrawIsStream(g: Gen, i: nat)
    ensures Draw(g).0 == Join4(Stream(g, DrawSkip(g)), Stream(g, DrawSkip(g) + 1), Stream(g, DrawSkip(g) + 2),
            Stream(g, DrawSkip(g) + 3))
    ensures Stream(Draw(g).1, i) == Stream(g, DrawSkip(g) + 4 + i)
  {
    hide Stream, Join4, Rekeyed;
    var k := DrawSkip(g);
    var f := if |g.pending| < 4 then Rekeyed(g, []) else g;
    if |g.pending| < 4 {
      var e := Gen(g.ctx, []);
      assert g.pending[k..] == [];
      RekeyIgnoresPending(g, []);
      forall j: nat
        ensures Stream(f, j) == Stream(g, k + j)
      {
        StreamOverRekey(e, j);
        DropPending(g, k, j);
      }
    }
    DropPending(f, 4, i);
    DropPending(f, 0, 0);
    DropPending(f, 0, 1);
    DropPending(f, 0, 2);
    DropPending(f, 0, 3);
  }

  // ---- The state in memory ----

  lemma TakeStep(g: Gen, left: nat, m: nat)
    requires left > 0 && g.pending != [] && m == if left < |g.pending| then left else |g.pending|
    ensures var rest := Take(Gen(g.ctx, g.pending[m..]), left - m);
            Take(g, left) == (g.pending[..m] + rest.0, rest.1)
  {
    hide Rekeyed;
  }

  lemma MoreDone(done: seq<byte>, p: seq<byte>, r: seq<byte>)
    ensures done + (p + r) == done + p + r
  {}

  lemma TakeRekeys(g: Gen, left: nat)
    requires left > 0 && g.pending == []
    ensures Take(g, left) == Take(Rekeyed(g, []), left)
  {
    hide Rekeyed;
  }

  lemma TakeNothing(g: Gen, done: seq<byte>)
    ensures done + Take(g, 0).0 == done && Take(g, 0).1 == g
  {}

  // ---- What goes into the key ----

  lemma {:induction false} XorBitsZero(b: nat, n: nat)
    requires b < Exp2(n)
    ensures XorBits(0, b, n) == b && XorBits(b, b, n) == 0
  {
    if n > 0 {
      XorBitsZero(b / 2, n - 1);
    }
  }

  lemma {:induction false} XorBitsTwice(a: nat, b: nat, n: nat)
    requires a < Exp2(n) && b < Exp2(n)
    ensures XorBits(a, b, n) == XorBits(b, a, n) && XorBits(XorBits(a, b, n), b, n) == a
  {
    if n > 0 {
      XorBitsTwice(a / 2, b / 2, n - 1);
    }
  }

  lemma XorZero(b: byte)
    ensures XorByte(0, b) == b && XorByte(b, b) == 0
  {
    EightBits();
    XorBitsZero(b, 8);
  }

  lemma XorTwice(a: byte, b: byte)
    ensures XorByte(a, b) == XorByte(b, a) && XorByte(XorByte(a, b), b) == a
  {
    EightBits();
    XorBitsTwice(a, b, 8);
  }

  lemma JoinInjective(s: seq<byte>, t: seq<byte>, at: nat)
    requires at + 4 <= |s| == |t| && Read4(s, at) == Read4(t, at)
    ensures s[at..at + 4] == t[at..at + 4]
  {
    hide Join4, Host4;
    Host4Join4(s[at], s[at + 1], s[at + 2], s[at + 3]);
    Host4Join4(t[at], t[at + 1], t[at + 2], t[at + 3]);
    assert s[at..at + 4] == [s[at], s[at + 1], s[at + 2], s[at + 3]];
    assert t[at..at + 4] == [t[at], t[at + 1], t[at + 2], t[at + 3]];
  }

  /** Key and nonce can be told from the context. */
  lemma SetupInjective(s: seq<byte>, t: seq<byte>)
    requires |s| == |t| == SEEDSZ && Setup(s) == Setup(t)
    ensures s == t
  {
    hide Read4;
    forall k: nat | k < 10
      ensures s[4 * k..4 * k + 4] == t[4 * k..4 * k + 4]
    {
      var i := if k < 8 then k + 4 else k + 6;
      assert Setup(s)[i] == Read4(s, 4 * k) && Setup(t)[i] == Read4(t, 4 * k);
      JoinInjective(s, t, 4 * k);
    }
    forall i | 0 <= i < SEEDSZ
      ensures s[i] == t[i]
    {
      var k: nat := i / 4;
      assert s[i] == s[4 * k..4 * k + 4][i % 4] && t[i] == t[4 * k..4 * k + 4][i % 4];
    }
  }

  /** Different entropy gives a different generator, whatever it was before. */
  lemma StirInjective(g: Gen, e1: seq<byte>, e2: seq<byte>)
    requires |e1| == |e2| == SEEDSZ && Stirred(g, e1) == Stirred(g, e2)
    ensures e1 == e2
  {
    hide XorByte, Keystream, Setup;
    var k := Keystream(g.ctx, RSBUFSZ);
    var s, t := Mix(k, e1)[..SEEDSZ], Mix(k, e2)[..SEEDSZ];
    SetupInjective(s, t);
    forall i | 0 <= i < SEEDSZ
      ensures e1[i] == e2[i]
    {
      assert s[i] == XorByte(k[i], e1[i]) && t[i] == XorByte(k[i], e2[i]);
      XorTwice(e1[i], k[i]);
      XorTwice(e2[i], k[i]);
    }
  }

  /** The next key and nonce are the data, if the keystream that it is mixed with is zero. */
  lemma RekeyOverZeros(g: Gen, dat: seq<byte>)
    requires |dat| >= SEEDSZ && Keystream(g.ctx, RSBUFSZ)[..SEEDSZ] == Zeros(SEEDSZ)
    ensures Rekeyed(g, dat).ctx == Setup(dat[..SEEDSZ])
  {
    hide XorByte, Keystream, Setup;
    var k := Keystream(g.ctx, RSBUFSZ);
    forall i | 0 <= i < SEEDSZ
      ensures Mix(k, dat)[i] == dat[i]
    {
      assert k[i] == k[..SEEDSZ][i] == 0;
      XorZero(dat[i]);
    }
    assert Mix(k, dat)[..SEEDSZ] == dat[..SEEDSZ];
  }

  /** Data behind key and nonce is not used, and without data the head of the keystream is the next key and nonce. */
  lemma RekeyPlainly(g: Gen, dat: seq<byte>)
    ensures Rekeyed(g, []).ctx == Setup(Keystream(g.ctx, RSBUFSZ)[..SEEDSZ])
    ensures Rekeyed(g, dat).pending == Keystream(g.ctx, RSBUFSZ)[SEEDSZ..]
    ensures |Rekeyed(g, dat).pending| == 984
    ensures |dat| > SEEDSZ ==> Rekeyed(g, dat) == Rekeyed(g, dat[..SEEDSZ])
  {
    hide XorByte, Keystream, Setup;
    MixNothing(Keystream(g.ctx, RSBUFSZ));
    if |dat| > SEEDSZ {
      assert Mix(Keystream(g.ctx, RSBUFSZ), dat) == Mix(Keystream(g.ctx, RSBUFSZ), dat[..SEEDSZ]);
    }
    assert Mix(Keystream(g.ctx, RSBUFSZ), dat)[SEEDSZ..] == Keystream(g.ctx, RSBUFSZ)[SEEDSZ..];
  }

  class RandState {
    var have: nat
    var count: nat
    const input: array<u32>
    const buf: array<byte>

    /** Everything in the buffer before the pending bytes has been erased. */
    ghost predicate Valid()
      reads this, input, buf
    {
      && input.Length == 16 && buf.Length == RSBUFSZ
      && have <= FRESH && count < SIZE_LIMIT
      && buf[..][..RSBUFSZ - have] == Zeros(RSBUFSZ - have)
    }

    ghost function Value(): Gen
      reads this, input, buf
      requires Valid()
    {
      Gen(input[..], buf[..][RSBUFSZ - have..])
    }

    /** calloc, as in _sget; the caller stirs at once. */
    constructor ()
      ensures Valid() && fresh(input) && fresh(buf)
      ensures Value() == Gen(seq(16, _ => 0), []) && count == 0
    {
      input := new u32[16](_ => 0);
      buf := new byte[RSBUFSZ](_ => 0);
      have, count := 0, 0;
      new;
      assert buf[..][..RSBUFSZ] == Zeros(RSBUFSZ);
      assert input[..] == seq(16, _ => 0);
    }

    /** _rs_rekey; the user data `dat` is wiped. */
    method Rekey(dat: array<byte>)
      requires Valid() && dat != buf
      modifies this, input, buf, dat
      ensures Valid() && Value() == Rekeyed(old(Value()), old(dat[..])) && count == old(count)
      ensures dat[..] == Zeros(dat.Length)
    {
      hide Keystream, Setup, BumpN, Splice, XorByte;
      ghost var g, d := Value(), dat[..];
      EncryptBytes(input, buf, buf, RSBUFSZ);
      ghost var k := Keystream(g.ctx, RSBUFSZ);
      assert buf[..] == k;
      var m := if dat.Length < SEEDSZ then dat.Length else SEEDSZ;
      for i := 0 to m
        invariant dat[..] == d && buf[..] == Mix(k, d[..i])
        modifies buf
      {
        buf[i] := XorByte(buf[i], dat[i]);
      }
      MixPrefix(k, d, m);
      Wipe(dat, dat.Length);
      assert Zeros(|d|) + d[|d|..] == Zeros(|d|);
      ghost var mixed := buf[..];
      assert mixed == Mix(k, d);
      KeySetup(input, buf);
      assert buf[..SEEDSZ] == mixed[..SEEDSZ];
      Wipe(buf, SEEDSZ);
      have := RSBUFSZ - KEYSZ - IVSZ;
      ErasedHead(mixed, buf[..]);
    }

    method RekeyPlain()
      requires Valid()
      modifies this, input, buf
      ensures Valid() && Value() == Rekeyed(old(Value()), []) && count == old(count)
    {
      hide Rekeyed;
      var none := new byte[0];
      assert none[..] == [];
      Rekey(none);
    }

    /** _rs_stir; `entropy` is what getentropy gave. */
    method Stir(entropy: seq<byte>)
      requires Valid()
      modifies this, input, buf
      ensures Valid() && Value() == Stirred(old(Value()), entropy) && count == RESEED
    {
      hide Rekeyed;
      var rnd := new byte[|entropy|](i requires 0 <= i < |entropy| => entropy[i]);
      assert rnd[..] == entropy;
      Rekey(rnd);
      have := 0;
      Wipe(buf, RSBUFSZ);
      count := RESEED;
      assert buf[..][..RSBUFSZ] == Zeros(RSBUFSZ);
    }

    /** _rs_stir_if_needed. */
    method StirIfNeeded(len: nat, entropy: seq<byte>)
      requires Valid() && len < SIZE_LIMIT
      modifies this, input, buf
      ensures Valid() && Value() == Reseeded(old(Value()), old(count), len, entropy)
      ensures count == Budget(old(count), len)
    {
      hide Stirred;
      if count <= len {
        Stir(entropy);
      }
      count := (count - len) % SIZE_LIMIT;
    }

    /** The next `m` pending bytes are handed out and erased. */
    method Consume(out: array<byte>, at: nat, m: nat)
      requires Valid() && m <= have && at + m <= out.Length && out != buf
      modifies this`have, buf, out
      ensures Valid() && Value() == Gen(old(Value()).ctx, old(Value()).pending[m..])
      ensures out[..] == Splice(old(out[..]), at, old(Value()).pending[..m])
    {
      ghost var b := buf[..];
      var from := RSBUFSZ - have;
      PutBytes(out, at, buf[from..from + m]);
      assert b[from..][..m] == b[from..from + m];
      PutBytes(buf, from, Zeros(m));
      have := have - m;
      assert buf[..][from + m..] == b[from..][m..];
    }

    /** One pass of the copy loop, from a buffer that is not empty. */
    method HandOut(out: array<byte>, at: nat, left: nat) returns (m: nat)
      requires Valid() && have > 0 && left > 0 && at + left <= out.Length && out != buf
      modifies this`have, buf, out
      ensures Valid() && 0 < m <= left && m <= |old(Value()).pending|
      ensures out[..] == Splice(old(out[..]), at, old(Value()).pending[..m])
      ensures var t := Take(Value(), left - m); Take(old(Value()), left) == (old(Value()).pending[..m] + t.0, t.1)
    {
      hide Rekeyed, Splice, Take, Zeros;
      m := if left < have then left else have;
      TakeStep(Value(), left, m);
      Consume(out, at, m);
    }

    /** _rs_random_buf. */
    method RandomBuf(out: array<byte>, n: nat, entropy: seq<byte>)
      requires Valid() && n <= out.Length && n < SIZE_LIMIT && out != buf
      modifies this, input, buf, out
      ensures var t := Take(Reseeded(old(Value()), old(count), n, entropy), n);
              Valid() && Value() == t.1 && out[..] == Splice(old(out[..]), 0, t.0)
      ensures count == Budget(old(count), n)
    {
      hide Rekeyed, Splice, Reseeded, Budget, Take, Zeros;
      ghost var o := out[..];
      StirIfNeeded(n, entropy);
      ghost var g := Value();
      var left: nat, at: nat := n, 0;
      ghost var done: seq<byte> := [];
      SpliceNothing(o, 0);
      assert done + Take(g, n).0 == Take(g, n).0;
      while left > 0
        invariant Valid() && count == Budget(old(count), n)
        invariant at + left == n && |done| == at && out[..] == Splice(o, 0, done)
        invariant Take(g, n) == (done + Take(Value(), left).0, Take(Value(), left).1)
        decreases left, have == 0
      {
        if have > 0 {
          ghost var v := Value();
          var m := HandOut(out, at, left);
          SpliceMore(o, 0, done, v.pending[..m]);
          MoreDone(done, v.pending[..m], Take(Value(), left - m).0);
          done := done + v.pending[..m];
          at, left := at + m, left - m;
        } else {
          TakeRekeys(Value(), left);
          RekeyPlain();
        }
      }
      TakeNothing(Value(), done);
    }

    /** _rs_random_u32. */
    method RandomU32(entropy: seq<byte>) returns (val: u32)
      requires Valid()
      modifies this, input, buf
      ensures var d := Draw(Reseeded(old(Value()), old(count), 4, entropy));
              Valid() && val == d.0 && Value() == d.1
      ensures count == Budget(old(count), 4)
    {
      hide Rekeyed, Reseeded, Budget, Join4;
      StirIfNeeded(4, entropy);
      if have < 4 {
        RekeyPlain();
      }
      var out := new byte[4];
      Consume(out, 0, 4);
      assert out[0] == out[..][0] && out[1] == out[..][1] && out[2] == out[..][2] && out[3] == out[..][3];
      val := Join4(out[0], out[1], out[2], out[3]);
    }

    static method Wipe(a: array<byte>, n: nat)
      requires n <= a.Length
      modifies a
      ensures a[..] == Zeros(n) + old(a[..])[n..]
    {
      for i := 0 to n
        invariant a[..] == Zeros(i) + old(a[..])[i..]
      {
        OneMoreWiped(old(a[..]), i);
        a[i] := 0;
      }
    }
  }

  lemma OneMoreWiped(s: seq<byte>, i: nat)
    requires i < |s|
    ensures (Zeros(i) + s[i..])[i := 0] == Zeros(i + 1) + s[i + 1..]
  {}

  lemma ErasedHead(mixed: seq<byte>, buf: seq<byte>)
    requires |mixed| == RSBUFSZ && buf == Zeros(SEEDSZ) + mixed[SEEDSZ..]
    ensures |buf| == RSBUFSZ && buf[..RSBUFSZ - FRESH] == Zeros(RSBUFSZ - FRESH) &&
            buf[RSBUFSZ - FRESH..] == mixed[SEEDSZ..]
  {}

  lemma MixPrefix(k: seq<byte>, d: seq<byte>, m: nat)
    requires m == if |d| < SEEDSZ then |d| else SEEDSZ
    ensures Mix(k, d[..m]) == Mix(k, d)
  {
    hide XorByte;
  }
}
