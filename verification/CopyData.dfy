/** copyfile_data: copying under short reads, short writes, zero writes and retried failures. */
module CopyData {
  import opened Bytes

  const GIG: nat := 0x4000_0000

  /** The answers of the caller's callback. */
  const CONTINUE: int := 0
  const SKIP: int := 1
  const QUIT: int := 2

  /**
   How the system and the caller answer: the n-th read and write want to move so many bytes (negative: they fail), and
   the callback, if there is one, is asked after each write.
   */
  datatype Env = Env(toRead: nat -> int, toWrite: nat -> int, status: bool, onError: nat -> int, onProgress: nat -> int,
                     truncates: bool)

  /** How the copy ended. */
  datatype End = Complete | Skipped | ReadFailed | WriteFailed | ZeroWrites | Cancelled | TruncateFailed

  /** A failed write that the callback wants to be repeated. */
  predicate Retried(env: Env, n: nat) {
    env.toWrite(n) < 0 && env.status && env.onError(n) == CONTINUE
  }

  /** No failure is retried from the n-th write on. */
  ghost predicate RetriesEnd(env: Env, n: nat) {
    forall k: nat | k >= n :: !Retried(env, k)
  }

  function Limited(n: nat): (r: nat)
    ensures r <= n && r <= 0x4000_0000 && (r == n || r == 0x4000_0000)
  {
    if n > GIG then GIG else n
  }

  function Larger(a: nat, b: nat): nat {
    if a < b then b else a
  }

  /** A file's bytes after `w` was written over their beginning. */
  function Overwritten(file: seq<byte>, w: seq<byte>): seq<byte> {
    w + if |w| < |file| then file[|w|..] else []
  }

  /** ftruncate() */
  function Resized(file: seq<byte>, size: nat): seq<byte> {
    if size <= |file| then file[..size] else file + Zeros(size - |file|)
  }

  /** The zero writes at the end of a log of writes; failures in between do not count. */
  function ZeroRun(log: seq<int>): nat {
    if log == [] then 0
    else
      var last, before := log[|log| - 1], log[..|log| - 1];
      if last == 0 then ZeroRun(before) + 1 else if last < 0 then ZeroRun(before) else 0
  }

  /** None of the first `n` writes stopped the copy: the failed ones were retried, and nobody quit after another one. */
  predicate Benign(env: Env, log: seq<int>, n: nat)
    requires n <= |log|
  {
    forall k: nat | k < n ::
      if log[k] < 0 then Retried(env, k) else env.toWrite(k) >= 0 && !(env.status && env.onProgress(k) == QUIT)
  }

  /** Why the copy ended, in terms of the answers that it got in `reads` reads and the writes of the log. */
  predicate EndsFor(env: Env, log: seq<int>, nreads: nat, end: End) {
    var last := |log| - 1;
    match end
    case Complete => Benign(env, log, |log|) && nreads > 0 && env.toRead(nreads - 1) >= 0 && env.truncates
    case TruncateFailed => Benign(env, log, |log|) && nreads > 0 && env.toRead(nreads - 1) >= 0 && !env.truncates
    case ReadFailed => Benign(env, log, |log|) && nreads > 0 && env.toRead(nreads - 1) < 0
    case Skipped =>
      && log != [] && Benign(env, log, last) && env.toWrite(last) < 0
      && env.status && env.onError(last) == SKIP
    case WriteFailed =>
      && log != [] && Benign(env, log, last) && env.toWrite(last) < 0
      && !(env.status && (env.onError(last) == SKIP || env.onError(last) == CONTINUE))
    case ZeroWrites => log != [] && Benign(env, log, last) && env.toWrite(last) >= 0 && ZeroRun(log) == 6
    case Cancelled =>
      && log != [] && Benign(env, log, last) && env.toWrite(last) >= 0
      && env.status && env.onProgress(last) == QUIT
  }

  class Copier {
    const source: seq<byte>
    const env: Env
    var pos: nat
    var nreads: nat
    var dst: seq<byte>
    var at: nat
    var log: seq<int>
    var totalCopied: nat
    /** The largest size that a read or a write was asked for. */
    ghost var largest: nat

    constructor (source: seq<byte>, dst: seq<byte>, env: Env)
      ensures this.source == source && this.dst == dst && this.env == env
      ensures pos == 0 && at == 0 && nreads == 0 && log == [] && totalCopied == 0 && largest == 0
    {
      this.source, this.dst, this.env := source, dst, env;
      pos, at, nreads, log, totalCopied, largest := 0, 0, 0, [], 0, 0;
    }

    /** read(): nothing only at the end of the source, or into an empty buffer. */
    method Read(n: nat) returns (r: int, block: seq<byte>)
      requires pos <= |source|
      modifies this`pos, this`nreads, this`largest
      ensures old(pos) <= pos <= |source| && block == source[old(pos)..pos]
      ensures if env.toRead(old(nreads)) < 0 then r == -1 && pos == old(pos) else r == |block| <= n
      ensures env.toRead(old(nreads)) >= 0 ==> (r == 0 <==> n == 0 || old(pos) == |source|)
      ensures nreads == old(nreads) + 1 && largest == Larger(old(largest), n)
    {
      largest := Larger(largest, n);
      var want := env.toRead(nreads);
      nreads := nreads + 1;
      if want < 0 {
        return -1, source[pos..pos];
      }
      var k := Least(if want == 0 then 1 else want, Least(n, |source| - pos));
      r, block := k, source[pos..pos + k];
      pos := pos + k;
    }

    /** write(): some of the bytes, none, or a failure. */
    method Write(b: seq<byte>) returns (r: int)
      requires at <= |dst|
      modifies this`dst, this`at, this`log, this`largest
      ensures largest == Larger(old(largest), |b|)
      ensures r == (if env.toWrite(|old(log)|) < 0 then -1 else Least(env.toWrite(|old(log)|), |b|))
      ensures log == old(log) + [r] && at == old(at) + (if r < 0 then 0 else r) <= |dst|
      ensures if r <= 0 then dst == old(dst)
              else dst == old(dst)[..old(at)] + b[..r] + old(dst)[Least(at, |old(dst)|)..]
    {
      largest := Larger(largest, |b|);
      var want := env.toWrite(|log|);
      r := if want < 0 then -1 else Least(want, |b|);
      log := log + [r];
      var n := if r < 0 then 0 else r;
      dst := dst[..at] + b[..n] + dst[Least(at + n, |dst|)..];
      at := at + n;
      assert n == 0 ==> dst == old(dst);
    }

    /** The destination holds the first `totalCopied` bytes of the source over its old contents `file`. */
    ghost predicate Prefix(file: seq<byte>)
      reads this
    {
      totalCopied <= pos <= |source| && at == totalCopied && dst == Overwritten(file, source[..totalCopied])
    }

    /** One write of the next piece of the source; what it moves is added to `totalCopied`. */
    method WritePiece(piece: seq<byte>, ghost file: seq<byte>) returns (n: int)
      requires Prefix(file) && totalCopied + |piece| <= pos && piece == source[totalCopied..totalCopied + |piece|]
      modifies this`dst, this`at, this`log, this`totalCopied, this`largest
      ensures Prefix(file) && log == old(log) + [n]
      ensures n == if env.toWrite(|old(log)|) < 0 then -1 else Least(env.toWrite(|old(log)|), |piece|)
      ensures totalCopied == old(totalCopied) + (if n < 0 then 0 else n) && largest == Larger(old(largest), |piece|)
    {
      hide Overwritten;
      PrefixFits(file, source[..totalCopied]);
      n := Write(piece);
      if n > 0 {
        Piece(file, source, totalCopied, n);
        assert piece[..n] == source[totalCopied..totalCopied + n];
        totalCopied := totalCopied + n;
      }
    }

    /** The inner loop: one block is written, piece by piece. */
    method WriteBlock(block: seq<byte>, oBlocksize: nat, ghost file: seq<byte>, ghost retries: nat) returns (end: End)
      requires Prefix(file) && totalCopied + |block| == pos && block == source[totalCopied..pos] && oBlocksize > 0
      requires RetriesEnd(env, retries) && ZeroRun(log) == 0 && Benign(env, log, |log|)
      modifies this`dst, this`at, this`log, this`totalCopied, this`largest
      ensures Prefix(file) && old(log) <= log
      ensures end in {Complete, Skipped, WriteFailed, ZeroWrites, Cancelled}
      ensures if end == Complete then totalCopied == pos && ZeroRun(log) == 0 && Benign(env, log, |log|)
              else EndsFor(env, log, nreads, end)
      ensures ZeroRun(log) == 6 ==> end == ZeroWrites
      ensures largest <= Larger(old(largest), oBlocksize)
    {
      hide ZeroRun, Overwritten, Benign;
      var left := |block|;
      var loop := 0;
      while left > 0
        invariant 0 <= left <= |block| && Prefix(file) && totalCopied + left == pos && old(log) <= log
        invariant largest <= Larger(old(largest), oBlocksize)
        invariant loop == ZeroRun(log) <= 5 && (left == 0 ==> loop == 0) && Benign(env, log, |log|)
        decreases left, if |log| < retries then retries - |log| else 0, 6 - loop
      {
        ghost var was := log;
        var piece := block[|block| - left..][..Least(left, oBlocksize)];
        assert piece == source[totalCopied..totalCopied + |piece|];
        var n := WritePiece(piece, file);
        BenignStep(env, was, n);
        ZeroRunStep(was, n);
        if n == 0 {
          loop := loop + 1;
          if loop > 5 {
            return ZeroWrites;
          }
        } else if n < 0 {
          if env.status {
            var rv := env.onError(|log| - 1);
            if rv == SKIP {
              return Skipped;
            }
            if rv == CONTINUE {
              assert Retried(env, |was|);
              continue;
            }
          }
          return WriteFailed;
        } else {
          left := left - n;
          loop := 0;
        }
        if env.status {
          var rv := env.onProgress(|log| - 1);
          if rv == QUIT {
            return Cancelled;
          }
        }
      }
      end := Complete;
    }

    /**
     copyfile_data: `ioSize` is the source's block size as the system tells it, `outSize` the destination's (0 if
     unknown), `stSize` the size that stat() gave for the source. What was written is always a prefix of the source.
     */
    method CopyFileData(regular: bool, ioSize: nat, outSize: nat, stSize: nat, ghost retries: nat)
      returns (ret: int, end: End)
      requires pos == 0 && at == 0 && log == [] && nreads == 0 && largest == 0
      requires RetriesEnd(env, retries)
      modifies this
      ensures !regular ==> ret == 0 && end == Complete && dst == old(dst)
      ensures regular ==> totalCopied <= pos <= |source| && at == totalCopied
      ensures regular ==> ret == if end in {Complete, Skipped} then 0 else -1
      ensures regular && end != Complete ==> dst == Overwritten(old(dst), source[..totalCopied])
      ensures regular && end == Complete ==> dst == Resized(Overwritten(old(dst), source[..totalCopied]), stSize)
      ensures regular && end == Complete ==> (totalCopied == |source| <==> ioSize > 0 || source == [])
      ensures regular ==> EndsFor(env, log, nreads, end) && (ZeroRun(log) == 6 ==> end == ZeroWrites)
      ensures largest <= 0x4000_0000
      ensures regular && ioSize == 0 ==> totalCopied == 0 && end == if env.toRead(0) < 0 then ReadFailed
                                                                    else if env.truncates then Complete
                                                                    else TruncateFailed
    {
      hide ZeroRun, Overwritten, Resized, Benign, RetriesEnd;
      NothingYet(dst);
      NoneYet(env);
      end := Complete;
      if !regular {
        return 0, Complete;
      }
      var iBlocksize := Limited(ioSize);
      var oBlocksize := if outSize == 0 then iBlocksize else Limited(outSize);
      totalCopied := 0;
      ghost var file := dst;
      assert source[..0] == [];
      var nread, block := Read(iBlocksize);
      while nread > 0
        invariant Prefix(file) && pos == totalCopied + |block| && block == source[totalCopied..pos]
        invariant ZeroRun(log) == 0 && Benign(env, log, |log|)
        invariant nread == |block| || (nread == -1 && block == [])
        invariant nreads > 0 && (nread < 0 <==> env.toRead(nreads - 1) < 0)
        invariant nread == 0 ==> iBlocksize == 0 || pos == |source|
        invariant end == Complete && largest <= 0x4000_0000
        invariant iBlocksize == 0 ==> pos == 0 && nread == if env.toRead(0) < 0 then -1 else 0
        decreases |source| - totalCopied
      {
        end := WriteBlock(block, oBlocksize, file, retries);
        if end != Complete {
          return if end == Skipped then 0 else -1, end;
        }
        nread, block := Read(iBlocksize);
      }
      if nread < 0 {
        return -1, ReadFailed;
      }
      if !env.truncates {
        return -1, TruncateFailed;
      }
      dst := Resized(dst, stSize);
      ret := 0;
    }
  }

  lemma BenignStep(env: Env, log: seq<int>, r: int)
    requires Benign(env, log, |log|)
    ensures Benign(env, log + [r], |log|)
    ensures (if r < 0 then Retried(env, |log|)
             else env.toWrite(|log|) >= 0 && !(env.status && env.onProgress(|log|) == QUIT))
            ==> Benign(env, log + [r], |log| + 1)
  {}

  lemma ZeroRunStep(log: seq<int>, r: int)
    ensures ZeroRun(log + [r]) == if r == 0 then ZeroRun(log) + 1 else if r < 0 then ZeroRun(log) else 0
  {
    assert (log + [r])[..|log|] == log;
  }

  lemma PrefixFits(file: seq<byte>, w: seq<byte>)
    ensures |w| <= |Overwritten(file, w)|
  {}

  lemma NoneYet(env: Env)
    ensures Benign(env, [], 0)
  {}

  lemma NothingYet(file: seq<byte>)
    ensures Overwritten(file, []) == file && ZeroRun([]) == 0
  {}

  /** The next piece of the source goes behind what is there. */
  lemma Piece(file: seq<byte>, source: seq<byte>, k: nat, n: nat)
    requires k + n <= |source|
    ensures var f := Overwritten(file, source[..k]);
            k <= |f| && f[..k] + source[k..k + n] + f[Least(k + n, |f|)..] == Overwritten(file, source[..k + n])
  {
    var f := Overwritten(file, source[..k]);
    assert source[..k + n] == source[..k] + source[k..k + n];
    assert f[..k] == source[..k];
  }

  /** A complete copy of a source whose size has not changed is the source, whatever the destination held before. */
  lemma WholeCopy(file: seq<byte>, source: seq<byte>)
    ensures Resized(Overwritten(file, source), |source|) == source
  {}

  /** The answers of the system and the caller decide how the copy ends: no two ends have the same reasons. */
  lemma EndDecided(env: Env, log: seq<int>, nreads: nat, end: End, end': End)
    requires EndsFor(env, log, nreads, end) && EndsFor(env, log, nreads, end')
    requires ZeroRun(log) == 6 ==> end == end' == ZeroWrites
    ensures end == end'
  {
    hide ZeroRun;
    if log != [] && Benign(env, log, |log|) {
      LastBenign(env, log);
    }
  }

  lemma LastBenign(env: Env, log: seq<int>)
    requires log != [] && Benign(env, log, |log|)
    ensures var k := |log| - 1; env.toWrite(k) < 0 ==> Retried(env, k)
    ensures var k := |log| - 1; env.toWrite(k) >= 0 ==> !(env.status && env.onProgress(k) == 2)
  {}

  /** What the reasons are: 0 from the callback repeats a failed write, 1 skips the data, and 2 quits. */
  lemma EndReasons(env: Env, log: seq<int>, nreads: nat, end: End)
    requires EndsFor(env, log, nreads, end)
    ensures end in {Complete, TruncateFailed, ReadFailed} ==>
              forall k: nat | k < |log| ::
                if env.toWrite(k) < 0 then env.status && env.onError(k) == 0 else env.status ==> env.onProgress(k) != 2
    ensures end == Skipped ==> log != [] && env.toWrite(|log| - 1) < 0 && env.status && env.onError(|log| - 1) == 1
    ensures end == WriteFailed ==>
              log != [] && env.toWrite(|log| - 1) < 0 && (env.status ==> env.onError(|log| - 1) !in {0, 1})
    ensures end == Cancelled ==>
              log != [] && env.toWrite(|log| - 1) >= 0 && env.status && env.onProgress(|log| - 1) == 2
    ensures end == ReadFailed ==> nreads > 0 && env.toRead(nreads - 1) < 0
  {
    hide ZeroRun;
  }

  /** From a block size of zero: the copy of [7] succeeds, and the destination holds a zero instead. */
  method ZeroBlocks() returns (ret: int, dst: seq<byte>)
    ensures ret == 0 && dst == [0]
  {
    var c := new Copier([7], [], Env(n => 1, n => 1, false, n => QUIT, n => CONTINUE, true));
    var end: End;
    ret, end := c.CopyFileData(true, 0, 0, 1, 0);
    dst := c.dst;
    assert c.source[..0] == [];
  }
}
