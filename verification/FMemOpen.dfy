/** fmemopen: a file of bounded size in a buffer. Sizes are 64-bit unsigned, seek offsets 64-bit signed. */
module FMemOpen {
  import opened Wrappers
  import opened Bytes

  const W64: nat := 0x1_0000_0000_0000_0000
  const HALF: nat := 0x8000_0000_0000_0000

  type i64 = x: int | -0x8000_0000_0000_0000 <= x < 0x8000_0000_0000_0000

  datatype Whence = SeekSet | SeekCur | SeekEnd | Other

  /** A NUL behind text that does not end in one and does not fill the buffer. */
  function Ended(s: seq<byte>, end: nat, bin: bool): (r: seq<byte>)
    requires 0 < end <= |s|
    ensures |r| == |s|
  {
    if !bin && end < |s| && s[end - 1] != 0 then Splice(s, end, [0]) else s
  }

  lemma Wrapped(x: int)
    requires x < 0x1_0000_0000_0000_0000 && x + 0x1_0000_0000_0000_0000 > 0
    ensures x % W64 == if x < 0 then x + 0x1_0000_0000_0000_0000 else x
  {}

  /** The buffer, the length of the data in it, the offset, and whether the stream is binary. */
  datatype File = File(bytes: seq<byte>, len: nat, off: nat, bin: bool) {
    predicate Valid() {
      0 < |bytes| < HALF && len <= |bytes| && off <= |bytes|
    }

    /** How much a read takes: the difference is unsigned, and huge behind the data. */
    function ReadCount(n: nat): int {
      if n > (len - off) % W64 then (len - off) % W64 else n
    }

    function Read(n: nat): (f: File)
      requires Valid() && off + ReadCount(n) <= |bytes| && ReadCount(n) >= 0
      ensures f.Valid()
    {
      this.(off := off + ReadCount(n))
    }

    function WriteCount(b: seq<byte>): nat
      requires Valid()
    {
      Least(|b|, |bytes| - off)
    }

    /** The write, and the NUL. */
    function Write(b: seq<byte>): (f: File)
      requires Valid()
      ensures f.Valid()
    {
      var n := WriteCount(b);
      if n == 0 then this
      else
        var off' := off + n;
        File(Ended(Splice(bytes, off, b[..n]), off', bin), if off' > len then off' else len, off', bin)
    }

    /** Where a seek goes, in unsigned arithmetic; None if it fails. */
    function Landing(offset: i64, whence: Whence): (r: Option<nat>) {
      match whence
      case SeekSet => if offset % W64 > |bytes| then None else Some(offset % W64)
      case SeekCur => if (off + offset) % W64 > |bytes| then None else Some((off + offset) % W64)
      case SeekEnd => if offset > 0 || (0 - offset) % W64 > len then None else Some((len + offset) % W64)
      case Other => None
    }

    function Seek(offset: i64, whence: Whence): File {
      match Landing(offset, whence)
      case None => this
      case Some(to) => this.(off := to)
    }
  }

  datatype Kind = ReadMode | WriteMode | AppendMode

  /** A mode string that is valid, taken apart. */
  datatype Mode = Mode(kind: Kind, plus: bool, bin: bool)

  /** strnlen */
  function Strnlen(s: seq<byte>): (n: nat)
    ensures n <= |s| && (n < |s| ==> s[n] == 0) && forall k | 0 <= k < n :: s[k] != 0
  {
    if s == [] || s[0] == 0 then 0 else 1 + Strnlen(s[1..])
  }

  /** The file at first. Appending starts at the first NUL, in binary streams too. */
  function Opened(buf: seq<byte>, own: bool, m: Mode): (f: File)
    requires 0 < |buf| < HALF
    ensures f.Valid() && f.off <= f.len
  {
    var bytes := if own || m.kind == WriteMode then Splice(buf, 0, [0]) else buf;
    match m.kind
    case AppendMode => File(bytes, Strnlen(bytes), Strnlen(bytes), m.bin)
    case ReadMode => File(bytes, |bytes|, 0, m.bin)
    case WriteMode => File(bytes, 0, 0, m.bin)
  }

  method CStrnlen(a: array<byte>, size: nat) returns (n: nat)
    requires size <= a.Length
    ensures n == Strnlen(a[..size])
  {
    n := 0;
    while n < size && a[n] != 0
      invariant 0 <= n <= size && Strnlen(a[..size]) == n + Strnlen(a[n..size])
    {
      assert a[n..size][1..] == a[n + 1..size];
      n := n + 1;
    }
  }

  /** struct fmemopen_cookie, and which of the two functions funopen() is given. */
  class Cookie {
    var buf: array<byte>
    var own: bool
    var bin: bool
    var size: nat
    var len: nat
    var off: nat
    var canRead: bool
    var canWrite: bool

    ghost predicate Valid()
      reads this
    {
      0 < size < HALF && size <= buf.Length && len <= size && off <= size
    }

    ghost function Value(): (f: File)
      requires Valid()
      reads this, buf
      ensures f.Valid()
    {
      File(buf[..size], len, off, bin)
    }

    constructor (buf: array<byte>, own: bool, size: nat)
      ensures this.buf == buf && this.own == own && this.size == size && off == 0 && len == 0
    {
      this.buf, this.own, this.size, off, len := buf, own, size, 0, 0;
    }

    /** `inside` tells whether what is read lies in the buffer; the model stops if it does not. */
    method Read(nbytes: nat) returns (inside: bool, r: seq<byte>)
      requires Valid()
      modifies this
      ensures Valid() && buf == old(buf) && size == old(size)
      ensures inside <==> old(off + Value().ReadCount(nbytes)) <= size
      ensures if inside then Value() == old(Value()).Read(nbytes) && r == buf[old(off)..off]
              else Value() == old(Value())
    {
      var n := nbytes;
      if n > (len - off) % W64 {
        n := (len - off) % W64;
      }
      if off + n > size {
        return false, [];
      }
      inside, r := true, buf[off..off + n];
      off := off + n;
    }

    method Write(b: seq<byte>) returns (n: nat)
      requires Valid()
      modifies this, buf
      ensures Valid() && buf == old(buf) && size == old(size)
      ensures n == old(Value()).WriteCount(b) && Value() == old(Value()).Write(b)
      ensures buf[size..] == old(buf[..])[size..]
    {
      hide Splice;
      n := |b|;
      if n > size - off {
        n := size - off;
      }
      if n == 0 {
        return;
      }
      SplicePrefix(buf[..], size, off, b[..n]);
      PutBytes(buf, off, b[..n]);
      off := off + n;
      if off > len {
        len := off;
      }
      assert buf[off - 1] == buf[..size][off - 1];
      if !bin && off < size && buf[off - 1] != 0 {
        SplicePrefix(buf[..], size, off, [0]);
        PutBytes(buf, off, [0]);
      }
    }

    method Seek(offset: i64, whence: Whence) returns (r: int)
      requires Valid()
      modifies this`off
      ensures Valid()
      ensures Value() == old(Value()).Seek(offset, whence)
      ensures r == match old(Value()).Landing(offset, whence) case None => -1 case Some(to) => to
    {
      match whence {
        case SeekSet =>
          if offset % W64 > size {
            return -1;
          }
          off := offset % W64;
        case SeekCur =>
          if (off + offset) % W64 > size {
            return -1;
          }
          off := (off + offset) % W64;
        case SeekEnd =>
          if offset > 0 || (0 - offset) % W64 > len {
            return -1;
          }
          Wrapped(0 - offset);
          Wrapped(len + offset);
          off := (len + offset) % W64;
        case Other =>
          return -1;
      }
      r := off;
    }
  }

  lemma SplicePrefix(s: seq<byte>, size: nat, at: nat, r: seq<byte>)
    requires at + |r| <= size <= |s|
    ensures Splice(s, at, r)[..size] == Splice(s[..size], at, r) && Splice(s, at, r)[size..] == s[size..]
  {}

  /** The part of fmemopen that sets up the buffer and the state by the mode. */
  method SetUp(ck: Cookie, m: Mode)
    requires 0 < ck.size < HALF && ck.size <= ck.buf.Length && ck.off == 0
    modifies ck, ck.buf
    ensures ck.Valid() && ck.buf == old(ck.buf) && ck.size == old(ck.size) && ck.own == old(ck.own)
    ensures ck.Value() == Opened(old(ck.buf[..ck.size]), ck.own, m)
    ensures Access(ck.canRead, ck.canWrite) == Granted(m)
  {
    hide Splice, Strnlen;
    ghost var s := ck.buf[..ck.size];
    if ck.own || m.kind == WriteMode {
      SplicePrefix(ck.buf[..], ck.size, 0, [0]);
      PutBytes(ck.buf, 0, [0]);
    }
    ck.bin := m.bin;
    match m.kind {
      case AppendMode =>
        var n := CStrnlen(ck.buf, ck.size);
        ck.off, ck.len := n, n;
      case ReadMode => ck.len := ck.size;
      case WriteMode => ck.len := 0;
    }
    ck.canRead, ck.canWrite := m.plus || m.kind == ReadMode, true;
  }

  /** Whether a stream is to be read, and to be written. */
  datatype Access = Access(read: bool, write: bool)

  /** What the mode asks for. */
  function Wanted(m: Mode): Access {
    Access(m.plus || m.kind == ReadMode, m.plus || m.kind != ReadMode)
  }

  /** What funopen() is told: the test for a write-only mode works, the one for a read-only mode never does. */
  function Granted(m: Mode): Access {
    Access(m.plus || m.kind == ReadMode, true)
  }

  /** fmemopen: null stands for EINVAL. */
  method Fmemopen(buf: array?<byte>, size: nat, mode: Option<Mode>) returns (ck: Cookie?)
    requires size < HALF && (buf != null ==> size <= buf.Length)
    modifies buf
    ensures ck == null <==> size == 0 || mode == None || (!mode.value.plus && buf == null)
    ensures ck != null ==> fresh(ck) && ck.Valid() && ck.size == size && ck.own == (buf == null)
    ensures ck != null ==>
              if buf == null then fresh(ck.buf)
              else ck.buf == buf && ck.Value() == Opened(old(buf[..size]), false, mode.value)
    ensures ck != null && buf == null ==> exists b: seq<byte> | |b| == size :: ck.Value() == Opened(b, true, mode.value)
    ensures ck != null ==> Access(ck.canRead, ck.canWrite) == Granted(mode.value)
  {
    hide Opened, File.Valid;
    if size == 0 || mode == None {
      return null;
    }
    if !mode.value.plus && buf == null {
      return null;
    }
    if buf == null {
      var b := new byte[size];
      ck := new Cookie(b, true, size);
      ghost var s := b[..size];
      SetUp(ck, mode.value);
      assert ck.Value() == Opened(s, true, mode.value);
    } else {
      ck := new Cookie(buf, false, size);
      SetUp(ck, mode.value);
    }
  }

  // ---- What the mode promises ----

  /** "r": all bytes can be read, from the start. */
  lemma ReadsAll(buf: seq<byte>, plus: bool, bin: bool)
    requires 0 < |buf| < HALF
    ensures var f := Opened(buf, false, Mode(ReadMode, plus, bin));
            f.off == 0 && f.bytes == buf && f.ReadCount(|buf|) == |buf| && f.Read(|buf|).off == |buf|
  {}

  /** "w": there is no data, and the first byte is NUL. */
  lemma StartsEmpty(buf: seq<byte>, own: bool, plus: bool, bin: bool, n: nat)
    requires 0 < |buf| < HALF
    ensures var f := Opened(buf, own, Mode(WriteMode, plus, bin));
            f.off == 0 && f.ReadCount(n) == 0 && f.bytes[0] == 0 && f.bytes[1..] == buf[1..]
  {}

  /** "a": the data ends with the first NUL, and is written to from there; nothing can be read. */
  lemma StartsAtEnd(buf: seq<byte>, plus: bool, bin: bool, n: nat)
    requires 0 < |buf| < HALF
    ensures var f := Opened(buf, false, Mode(AppendMode, plus, bin));
            && f.bytes == buf && f.ReadCount(n) == 0 && 0 !in buf[..f.off] && (f.off < |buf| ==> buf[f.off] == 0)
  {}

  /** The access is the one asked for exactly unless the mode is to read only. */
  lemma GrantedExactly(m: Mode)
    ensures Granted(m) == Wanted(m) <==> m.plus || m.kind != ReadMode
  {}

  /** With mode "r" the stream can be written. */
  lemma ReadOnlyWritten()
    ensures var m := Mode(ReadMode, false, false); Granted(m).write && !Wanted(m).write
  {}

  lemma NulInside(s: seq<byte>)
    ensures Strnlen(s) < |s| <==> 0 in s
  {}

  /**
   A comment promises that binary streams are appended to at the size of the buffer; exactly if it has no NUL they
   are.
   */
  lemma BinaryAppendExactly(buf: seq<byte>, own: bool, m: Mode)
    requires 0 < |buf| < HALF && m.kind == AppendMode && m.bin
    ensures Opened(buf, own, m).off == |buf| <==> !own && 0 !in buf
  {
    var bytes := if own then Splice(buf, 0, [0]) else buf;
    NulInside(bytes);
    assert own ==> bytes[0] == 0;
  }

  /** With mode "ab" and a buffer that holds one byte of two, writing starts at 1. */
  lemma AppendsAtNul()
    ensures Opened([7, 0], false, Mode(AppendMode, false, true)).off == 1
  {
    assert Strnlen([0]) == 0;
    assert [7, 0][1..] == [0];
  }

  // ---- What the file keeps ----

  /** A read stays inside the buffer exactly if it starts in the data or ends before the end of the buffer. */
  lemma ReadSafeExactly(f: File, n: nat)
    requires f.Valid() && n < HALF
    ensures f.off + f.ReadCount(n) <= |f.bytes| <==> f.off <= f.len || f.off + n <= |f.bytes|
    ensures f.off <= f.len ==> f.ReadCount(n) == Least(n, f.len - f.off)
  {
    assert f.off > f.len ==> (f.len - f.off) % W64 == f.len - f.off + W64;
  }

  /** Four bytes opened with "w+", and a seek to 1: ten bytes are read from there. */
  lemma ReadLeaves()
    ensures var f := Opened([0, 0, 0, 0], false, Mode(WriteMode, true, false)).Seek(1, SeekSet);
            f.Valid() && f.off == 1 && f.ReadCount(10) == 10 && f.off + f.ReadCount(10) > |f.bytes|
  {
    hide Splice;
    assert (0 - 1) % W64 == W64 - 1;
  }

  /** Where a seek is meant to go. */
  function Target(f: File, offset: int, whence: Whence): int {
    match whence
    case SeekSet => offset
    case SeekCur => f.off + offset
    case SeekEnd => f.len + offset
    case Other => -1
  }

  lemma LandsExactly(f: File, offset: i64, whence: Whence)
    requires f.Valid()
    ensures var to, top := Target(f, offset, whence), if whence == SeekEnd then f.len else |f.bytes|;
            f.Landing(offset, whence) == if 0 <= to <= top then Some(to) else None
  {
    Wrapped(Target(f, offset, whence));
    Wrapped(0 - offset);
  }

  /** A seek succeeds exactly for targets in range, goes there, and changes nothing but the offset. */
  lemma SeekExactly(f: File, offset: i64, whence: Whence)
    requires f.Valid()
    ensures var to, top := Target(f, offset, whence), if whence == SeekEnd then f.len else |f.bytes|;
            && f.Landing(offset, whence) == (if 0 <= to <= top then Some(to) else None)
            && f.Seek(offset, whence) == (if 0 <= to <= top then f.(off := to) else f)
            && f.Seek(offset, whence).Valid()
  {
    hide File.Landing, Target;
    LandsExactly(f, offset, whence);
  }

  /**
   A write stores as much as there is room for at the offset, touches no other byte but the one behind it, and that one
   only to end a text.
   */
  lemma WriteStores(f: File, b: seq<byte>)
    requires f.Valid()
    ensures var n, g := Least(|b|, |f.bytes| - f.off), f.Write(b);
            var end := f.off + n;
            && |g.bytes| == |f.bytes| && g.bin == f.bin && g.off == end &&
               g.len == (if n > 0 && end > f.len then end else f.len)
            && g.bytes[f.off..end] == b[..n]
            && (forall k | 0 <= k < |f.bytes| && !(f.off <= k <= end) :: g.bytes[k] == f.bytes[k])
            && (end < |f.bytes| ==> g.bytes[end] == if n > 0 && !f.bin && b[n - 1] != 0 then 0 else f.bytes[end])
  {
    hide Splice, Ended;
    var n := f.WriteCount(b);
    if n > 0 {
      var end := f.off + n;
      SpliceIs(f.bytes, f.off, b[..n]);
      var s := Splice(f.bytes, f.off, b[..n]);
      assert s[end - 1] == b[n - 1];
      EndedIs(s, end, f.bin);
      assert Ended(s, end, f.bin)[f.off..end] == s[f.off..end];
    }
  }

  lemma SpliceIs(s: seq<byte>, at: nat, r: seq<byte>)
    requires at + |r| <= |s|
    ensures var t := Splice(s, at, r);
            t[at..at + |r|] == r && forall k | 0 <= k < |s| && !(at <= k < at + |r|) :: t[k] == s[k]
  {}

  lemma EndedIs(s: seq<byte>, end: nat, bin: bool)
    requires 0 < end <= |s|
    ensures var t := Ended(s, end, bin);
            && (forall k | 0 <= k < |s| && k != end :: t[k] == s[k])
            && (end < |s| ==> t[end] == if !bin && s[end - 1] != 0 then 0 else s[end])
  {}

  /** Going back and reading gives what was written, and leaves the file as the write left it. */
  lemma ReadsBack(f: File, b: seq<byte>)
    requires f.Valid()
    ensures var g := f.Write(b);
            var n := g.off - f.off;
            var h := g.Seek(f.off, SeekSet);
            n == f.WriteCount(b) && h.ReadCount(n) == n && h.Read(n) == g && h.bytes[h.off..h.off + n] == b[..n]
  {
    WriteStores(f, b);
    var g := f.Write(b);
    var n := g.off - f.off;
    SeekExactly(g, f.off, SeekSet);
    var h := g.Seek(f.off, SeekSet);
    ReadSafeExactly(h, n);
    if n == 0 {
      assert h == g;
    }
  }

  // ---- All sequences of operations ----

  datatype Op = Reading(n: nat) | Writing(b: seq<byte>) | Seeking(offset: i64, whence: Whence)

  predicate Allowed(f: File, op: Op) {
    op.Reading? ==> op.n < HALF && f.off <= f.len
  }

  function Do(f: File, op: Op): (r: File)
    requires f.Valid() && Allowed(f, op)
    ensures r.Valid()
  {
    match op
    case Reading(n) =>
      ReadSafeExactly(f, n);
      f.Read(n)
    case Writing(b) => f.Write(b)
    case Seeking(offset, whence) =>
      SeekExactly(f, offset, whence);
      f.Seek(offset, whence)
  }

  /** The file after the operations, if every read starts in the data. */
  function Run(f: File, ops: seq<Op>): (r: Option<File>)
    requires f.Valid()
    ensures r.Some? ==> r.value.Valid()
    decreases |ops|
  {
    if ops == [] then Some(f)
    else
      var before := Run(f, ops[..|ops| - 1]);
      if before.Some? && Allowed(before.value, ops[|ops| - 1]) then Some(Do(before.value, ops[|ops| - 1])) else None
  }

  /** The byte at `k` after the operations, as the writes left it. */
  function LastWritten(f: File, ops: seq<Op>, k: nat): byte
    requires f.Valid() && k < |f.bytes| && Run(f, ops).Some?
    decreases |ops|
  {
    if ops == [] then f.bytes[k]
    else
      var init, op := ops[..|ops| - 1], ops[|ops| - 1];
      var g := Run(f, init).value;
      if !op.Writing? || !(0 <= k - g.off <= |op.b|) then LastWritten(f, init, k)
      else if k - g.off < |op.b| then op.b[k - g.off]
      else if op.b != [] && !f.bin && op.b[|op.b| - 1] != 0 then 0
      else LastWritten(f, init, k)
  }

  /** The end of the data: where it was at first, or the furthest that a write got. */
  function Furthest(f: File, ops: seq<Op>): nat
    requires f.Valid() && Run(f, ops).Some?
    decreases |ops|
  {
    if ops == [] then f.len
    else
      var init, op := ops[..|ops| - 1], ops[|ops| - 1];
      var before, at := Furthest(f, init), Run(f, ops).value.off;
      if op.Writing? && Run(f, init).value.WriteCount(op.b) > 0 && at > before then at else before
  }

  /**
   The bound is kept over every sequence: the buffer keeps its size, offset and length stay in it, each byte is the
   last one written there, and the length is that of the furthest write.
   */
  lemma {:induction false} RunIs(f: File, ops: seq<Op>)
    requires f.Valid() && Run(f, ops).Some?
    ensures var g := Run(f, ops).value;
            && |g.bytes| == |f.bytes| && g.bin == f.bin && g.len <= |f.bytes| && g.off <= |f.bytes|
            && g.len == Furthest(f, ops)
            && forall k | 0 <= k < |f.bytes| :: g.bytes[k] == LastWritten(f, ops, k)
    decreases |ops|
  {
    hide File.Write, File.Seek, File.Landing, File.ReadCount;
    if ops != [] {
      var init, op := ops[..|ops| - 1], ops[|ops| - 1];
      RunIs(f, init);
      var g := Run(f, init).value;
      assert Run(f, ops).value == Do(g, op);
      match op
      case Writing(b) => WriteStores(g, b);
      case Seeking(offset, whence) => SeekExactly(g, offset, whence);
      case Reading(n) =>
    }
  }
}
