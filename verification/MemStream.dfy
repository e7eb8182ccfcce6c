/** open_memstream: a file in memory that grows. */
module MemStream {
  import opened Wrappers
  import opened Bytes

  const INITIAL: nat := 4096

  /** Positions, sizes and capacities are 32-bit integers; 2^30 is the largest capacity. */
  const INT_MIN: int := -0x8000_0000
  const LIMIT: int := 0x4000_0000

  /** 4096 doubled any number of times. */
  predicate IsCapacity(c: int) {
    c == INITIAL || (c > INITIAL && c % 2 == 0 && IsCapacity(c / 2))
  }

  lemma {:induction false} NoneBetween(c: int, d: int)
    requires IsCapacity(c) && IsCapacity(d) && c < 2 * d
    ensures c <= d
    decreases d
  {
    if d != INITIAL && c != INITIAL {
      NoneBetween(c / 2, d / 2);
    }
  }

  function Nth(k: nat): int {
    if k == 0 then INITIAL else 2 * Nth(k - 1)
  }

  lemma {:induction false} NthIsCapacity(k: nat)
    ensures Nth(k) >= INITIAL && IsCapacity(Nth(k))
  {
    if k > 0 {
      NthIsCapacity(k - 1);
    }
  }

  lemma Eightfold(k: nat)
    ensures Nth(k + 3) == 8 * Nth(k)
  {
    assert Nth(k + 3) == 2 * Nth(k + 2);
    assert Nth(k + 2) == 2 * Nth(k + 1);
  }

  lemma LargestCapacity()
    ensures IsCapacity(LIMIT)
  {
    NthIsCapacity(18);
    Eightfold(0);
    Eightfold(3);
    Eightfold(6);
    Eightfold(9);
    Eightfold(12);
    Eightfold(15);
  }

  /** A capacity below the largest one can be doubled. */
  lemma Doubled(c: int)
    requires IsCapacity(c) && c < LIMIT
    ensures IsCapacity(2 * c) && 2 * c <= LIMIT
  {
    hide IsCapacity;
    LargestCapacity();
    Twice(c);
    NoneBetween(2 * c, LIMIT);
  }

  lemma Twice(c: int)
    requires IsCapacity(c)
    ensures IsCapacity(2 * c)
  {
    assert 2 * c / 2 == c >= INITIAL;
  }

  /** A capacity above `minsize` that an int can hold. */
  predicate Suits(c: int, minsize: nat) {
    IsCapacity(c) && minsize < c < 2 * LIMIT
  }

  /** There is one exactly if `minsize` is below 2^30. */
  lemma CapacityExists(minsize: nat)
    ensures (exists c :: Suits(c, minsize)) <==> minsize < LIMIT
  {
    LargestCapacity();
    assert minsize < LIMIT ==> Suits(LIMIT, minsize);
    forall c | Suits(c, minsize)
      ensures minsize < LIMIT
    {
      NoneBetween(c, LIMIT);
    }
  }

  datatype Whence = SeekSet | SeekCur | SeekEnd | Other

  // ---- The abstract file ----

  /** Bytes, and a position in them, just behind them, or in front of them. */
  datatype File = File(text: seq<byte>, at: int) {
    predicate Valid() {
      at <= |text|
    }

    /** Where a seek leads, if it leads anywhere. */
    function Target(offset: int, whence: Whence): int {
      match whence
      case SeekSet => offset
      case SeekCur => at + offset
      case SeekEnd => |text| + offset
      case Other => -1
    }

    /** All that is asked for, or what there is behind the position. */
    function ReadCount(count: nat): (n: nat)
      requires Valid()
      ensures n <= count && at + n <= |text| && (n == count || at + n == |text|)
    {
      if |text| - at < count then |text| - at else count
    }

    /** Nothing can be written in front of the bytes, or past the largest capacity. */
    predicate Writable(b: seq<byte>) {
      (at >= 0 && at + |b| < LIMIT) || b == []
    }

    function Write(b: seq<byte>): (f: File)
      requires Valid() && Writable(b)
      ensures f.Valid()
    {
      var end := at + |b|;
      if b == [] then this else File(text[..at] + b + if end < |text| then text[end..] else [], end)
    }

    /** Moving past the end fills the space between with zeros. */
    function Seek(pos: int): (f: File)
      ensures f.Valid()
    {
      File(text + if pos > |text| then Zeros(pos - |text|) else [], pos)
    }
  }

  /** Where a seek can go: the position stays the same as an int, and the capacity can be raised above it. */
  predicate Reachable(pos: int) {
    INT_MIN <= pos < LIMIT
  }

  /** The caller's variables: where the buffer is, and its size. */
  class Published {
    var buffer: array<byte>
    var size: int

    constructor (buffer: array<byte>)
      ensures this.buffer == buffer && size == 0
    {
      this.buffer, size := buffer, 0;
    }
  }

  /** struct memstream */
  class Stream {
    var position: int
    var size: int
    var capacity: int
    var contents: array<byte>
    const caller: Published

    ghost predicate Valid()
      reads this, caller, contents
    {
      && position <= size && 0 <= size < capacity == contents.Length
      && IsCapacity(capacity) && capacity <= LIMIT
      && (forall k | size <= k < capacity :: contents[k] == 0)
      && caller.buffer == contents && caller.size == size
    }

    ghost function Value(): File
      requires Valid()
      reads this, caller, contents
    {
      File(contents[..size], position)
    }

    /** open_memstream */
    constructor ()
      ensures Valid() && fresh(contents) && fresh(caller)
      ensures Value() == File([], 0)
    {
      position, size, capacity := 0, 0, INITIAL;
      var buffer := new byte[INITIAL](_ => 0);
      contents := buffer;
      caller := new Published(buffer);
      new;
    }

    /**
     memstream_grow: the new capacity exceeds `minsize`, and only zeros are added. `fits` tells whether doubling stays
     in 32 bits; the model stops if it does not.
     */
    method Grow(minsize: nat) returns (fits: bool)
      requires Valid() && capacity <= minsize
      modifies this`contents, this`capacity, caller`buffer
      ensures fits <==> minsize < LIMIT
      ensures Valid() && Value() == old(Value())
      ensures if fits then fresh(contents) && minsize < capacity <= 2 * minsize else contents == old(contents)
    {
      if capacity == LIMIT {
        return false;
      }
      var newcap := capacity * 2;
      Doubled(capacity);
      while newcap <= minsize
        invariant IsCapacity(newcap) && capacity < newcap <= LIMIT && newcap <= 2 * minsize
        modifies {}
        decreases minsize - newcap
      {
        if newcap == LIMIT {
          return false;
        }
        Doubled(newcap);
        newcap := newcap * 2;
      }
      fits := true;
      var was, n := contents, capacity;
      var room := new byte[newcap];
      forall k | 0 <= k < newcap {
        room[k] := if k < n then was[k] else 0;
      }
      contents, capacity := room, newcap;
      caller.buffer := contents;
      assert contents[..size] == was[..size];
    }

    /** The copying in memstream_write, once there is room. */
    method Store(b: seq<byte>)
      requires Valid() && b != [] && 0 <= position && position + |b| < capacity
      modifies this`position, this`size, caller`size, contents
      ensures Valid() && Value() == old(Value()).Write(b)
    {
      hide Splice, File.Write;
      ghost var f, s, n := Value(), contents[..], position + |b|;
      PutBytes(contents, position, b);
      position := position + |b|;
      if size < position {
        size := position;
        caller.size := size;
      }
      StillClear(s, f.at, b, size);
      WrittenIs(s, |f.text|, f.at, b, size);
      assert contents[..] == Splice(s, f.at, b);
      assert contents[..size] == Splice(s, f.at, b)[..size];
    }

    /**
     memstream_write. `inside` tells whether the capacity stays in 32 bits and what it writes lies in the buffer; the
     model stops if not.
     */
    method Write(b: seq<byte>) returns (inside: bool, n: int)
      requires Valid()
      modifies this, caller, contents
      ensures inside <==> old(Value()).Writable(b)
      ensures inside ==> Valid() && (contents == old(contents) || fresh(contents))
      ensures inside ==> n == |b| && Value() == old(Value()).Write(b)
    {
      if capacity <= position + |b| {
        var fits := Grow(position + |b|);
        if !fits {
          return false, 0;
        }
      }
      if |b| > 0 && position < 0 {
        return false, 0;
      }
      inside, n := true, |b|;
      if |b| > 0 {
        Store(b);
      }
    }

    /**
     memstream_seek: also to positions in front of the bytes. `fits` tells whether the target can be the position; the
     model stops if it cannot.
     */
    method Seek(offset: int, whence: Whence) returns (fits: bool, r: int)
      requires Valid()
      modifies this, caller
      ensures fits <==> whence == Other || Reachable(old(Value()).Target(offset, whence))
      ensures Valid() && (contents == old(contents) || fresh(contents))
      ensures if whence == Other then r == -1 && Value() == old(Value())
              else fits ==> r == old(Value()).Target(offset, whence) && Value() == old(Value()).Seek(r)
    {
      hide Zeros;
      var pos := 0;
      match whence {
        case SeekSet => pos := offset;
        case SeekCur => pos := position + offset;
        case SeekEnd => pos := size + offset;
        case Other => return true, -1;
      }
      fits := INT_MIN <= pos;
      if pos >= capacity {
        fits := Grow(pos);
      }
      if !fits {
        return false, pos;
      }
      ghost var text := contents[..size];
      assert text == old(Value().text);
      GapIsZero(contents[..], size, pos);
      position := pos;
      if size < position {
        size := position;
        caller.size := size;
      }
      r := pos;
    }

    /**
     memstream_read: the position is moved, but the bytes are those at the start of the buffer. `inside` tells whether
     they lie in the buffer.
     */
    method Read(count: nat) returns (inside: bool, r: seq<byte>)
      requires Valid()
      modifies this`position
      ensures inside <==> old(Value()).ReadCount(count) <= capacity
      ensures inside ==> Valid() && Value() == old(Value()).(at := old(position) + |r|)
      ensures inside ==> |r| == old(Value()).ReadCount(count)
      ensures inside ==> forall k | 0 <= k < |r| :: r[k] == if k < size then old(Value()).text[k] else 0
    {
      var n := if size - position < count then size - position else count;
      if n < 1 {
        return true, [];
      }
      if n > capacity {
        return false, [];
      }
      inside, r := true, contents[..n];
      position := position + n;
    }

    /**
     memstream_close: what is published ends at the position, if that is earlier, with a NUL there. `inside` tells
     whether the NUL lies in the buffer.
     */
    method Close() returns (inside: bool, r: int)
      requires Valid()
      modifies this, caller, contents
      ensures inside <==> old(position) >= 0
      ensures contents == old(contents) && caller.buffer == contents && caller.size == old(position) < contents.Length
      ensures inside ==> r == 0 && contents[caller.size] == 0
      ensures inside ==> contents[..caller.size] == old(Value().text)[..caller.size]
    {
      size := if size < position then size else position;
      caller.buffer := contents;
      caller.size := size;
      if size < 0 {
        return false, 0;
      }
      contents[size] := 0;
      inside, r := true, 0;
    }
  }

  /** The first `n` of `size` bytes are those at the position, whatever the bytes are, exactly for position 0. */
  lemma ReadsRightExactly(size: nat, at: nat, n: nat)
    requires n > 0 && at + n <= size
    ensures (forall text: seq<byte> | |text| == size :: text[..n] == text[at..at + n]) <==> at == 0
  {
    if at > 0 {
      var text: seq<byte> := seq(size, k => if k == 0 then 1 else 0);
      assert text[..n][0] == 1 && text[at..at + n][0] == 0;
    }
  }

  lemma GapIsZero(s: seq<byte>, size: nat, pos: int)
    requires size <= |s| && pos <= |s| && forall k | size <= k < |s| :: s[k] == 0
    ensures pos > size ==> s[..pos] == s[..size] + Zeros(pos - size)
  {}

  lemma StillClear(s: seq<byte>, at: nat, b: seq<byte>, size: nat)
    requires at + |b| <= size <= |s| && forall k | size <= k < |s| :: s[k] == 0
    ensures forall k | size <= k < |s| :: Splice(s, at, b)[k] == 0
  {}

  lemma WrittenIs(s: seq<byte>, size: nat, at: nat, b: seq<byte>, end: nat)
    requires at <= size <= |s| && at + |b| <= |s| && b != [] && at + |b| < LIMIT
    requires end == if size < at + |b| then at + |b| else size
    ensures Splice(s, at, b)[..end] == File(s[..size], at).Write(b).text
    ensures File(s[..size], at).Write(b).at == at + |b|
  {}

  // ---- What the file holds, byte by byte ----

  datatype Op = Writing(b: seq<byte>) | Seeking(offset: int, whence: Whence)

  /** Nothing is written in front of the bytes, and positions stay in range. */
  predicate Allowed(f: File, op: Op) {
    match op
    case Writing(b) => f.Writable(b)
    case Seeking(offset, whence) => whence == Other || Reachable(f.Target(offset, whence))
  }

  function Do(f: File, op: Op): (r: File)
    requires f.Valid() && Allowed(f, op)
    ensures r.Valid()
  {
    match op
    case Writing(b) => f.Write(b)
    case Seeking(offset, whence) => if whence == Other then f else f.Seek(f.Target(offset, whence))
  }

  /** The file after the operations, if all are allowed. */
  function Run(ops: seq<Op>): (f: Option<File>)
    ensures f.Some? ==> f.value.Valid()
    decreases |ops|
  {
    if ops == [] then Some(File([], 0))
    else
      var before := Run(ops[..|ops| - 1]);
      if before.Some? && Allowed(before.value, ops[|ops| - 1]) then Some(Do(before.value, ops[|ops| - 1])) else None
  }

  /** From the start, from where the last operation ended, or from the furthest position. */
  function Position(ops: seq<Op>): int
    decreases |ops|, 0
  {
    if ops == [] then 0
    else
      match ops[|ops| - 1]
      case Writing(b) => Position(ops[..|ops| - 1]) + |b|
      case Seeking(offset, SeekSet) => offset
      case Seeking(offset, SeekCur) => Position(ops[..|ops| - 1]) + offset
      case Seeking(offset, SeekEnd) => Extent(ops[..|ops| - 1]) + offset
      case Seeking(_, Other) => Position(ops[..|ops| - 1])
  }

  /** The furthest position reached so far. */
  function Extent(ops: seq<Op>): nat
    decreases |ops|, 1
  {
    if ops == [] then 0
    else
      var before := Extent(ops[..|ops| - 1]);
      if Position(ops) > before then Position(ops) else before
  }

  /** The byte last written at `k`; zero if none was. */
  function LastWritten(ops: seq<Op>, k: nat): byte
    decreases |ops|
  {
    if ops == [] then 0
    else
      var init := ops[..|ops| - 1];
      match ops[|ops| - 1]
      case Writing(b) =>
        if Position(init) <= k < Position(init) + |b| then b[k - Position(init)] else LastWritten(init, k)
      case Seeking(_, _) => LastWritten(init, k)
  }

  lemma {:induction false} NothingBeyond(ops: seq<Op>, k: nat)
    requires k >= Extent(ops)
    ensures LastWritten(ops, k) == 0
    decreases |ops|
  {
    if ops != [] {
      NothingBeyond(ops[..|ops| - 1], k);
    }
  }

  /**
   After any writes and seeks (if nothing is written in front of the bytes, and positions stay in range): as long as
   the furthest position, the last byte written everywhere, and zeros in the gaps.
   */
  lemma {:induction false} HoldsLastWritten(ops: seq<Op>)
    requires Run(ops).Some?
    ensures var f := Run(ops).value;
            && f.at == Position(ops) && |f.text| == Extent(ops)
            && forall k | 0 <= k < |f.text| :: f.text[k] == LastWritten(ops, k)
    decreases |ops|
  {
    if ops != [] {
      var init := ops[..|ops| - 1];
      HoldsLastWritten(init);
      forall k | Extent(init) <= k < Extent(ops)
        ensures LastWritten(init, k) == 0
      {
        NothingBeyond(init, k);
      }
    }
  }

  /** A seek to -1 is accepted, and the byte written next lies in front of the buffer. */
  lemma InFront()
    ensures Run([Seeking(-1, SeekSet)]) == Some(File([], -1)) && Run([Seeking(-1, SeekSet), Writing([7])]) == None
  {
    var ops := [Seeking(-1, SeekSet), Writing([7])];
    assert ops[..1] == [Seeking(-1, SeekSet)];
    assert [Seeking(-1, SeekSet)][..0] == [];
  }

  /** A seek to 2^30, and a write that ends there, need a capacity of 2^31. */
  lemma TooLarge(b: byte)
    ensures Run([Seeking(0x4000_0000, SeekSet)]) == None && Run([Seeking(0x3fff_ffff, SeekSet), Writing([b])]) == None
    ensures forall pos :: Reachable(pos) <==> -0x8000_0000 <= pos < 0x4000_0000
  {
    var ops := [Seeking(0x3fff_ffff, SeekSet), Writing([b])];
    assert ops[..1] == [Seeking(0x3fff_ffff, SeekSet)];
    assert [Seeking(0x4000_0000, SeekSet)][..0] == [] == [Seeking(0x3fff_ffff, SeekSet)][..0];
  }

  /** Two bytes are written, and the second one is to be read: it is the first that comes. */
  method ReadsFirst() returns (r: seq<byte>)
    ensures r == [1]
  {
    var s := new Stream();
    var inside, n := s.Write([1, 2]);
    var fits, pos := s.Seek(1, SeekSet);
    inside, r := s.Read(1);
    assert s.size == 2;
  }
}
