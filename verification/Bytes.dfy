/** Bytes in memory, and the integers a little-endian host stores in them. */
module Bytes {
  type byte = x: int | 0 <= x < 0x100
  type u16 = x: int | 0 <= x < 0x1_0000
  type u32 = x: int | 0 <= x < 0x1_0000_0000

  /** The integer whose bytes are a, b, c, d, least significant first. */
  function Join4(a: byte, b: byte, c: byte, d: byte): (v: u32) {
    a as int + 0x100 * (b as int + 0x100 * (c as int + 0x100 * d as int))
  }

  function Join2(a: byte, b: byte): (v: u16) {
    a as int + 0x100 * b as int
  }

  /** The bytes a little-endian host keeps for a 32-bit integer. */
  function Host4(v: u32): (s: seq<byte>)
    ensures |s| == 4
  {
    [v % 0x100, v / 0x100 % 0x100, v / 0x100 / 0x100 % 0x100, v / 0x100 / 0x100 / 0x100]
  }

  function Host2(v: u16): (s: seq<byte>) {
    [v % 0x100, v / 0x100]
  }

  /** Big-endian (file order) bytes. */
  function Big4(v: u32): (s: seq<byte>) {
    [v / 0x100 / 0x100 / 0x100, v / 0x100 / 0x100 % 0x100, v / 0x100 % 0x100, v % 0x100]
  }

  function Big2(v: u16): (s: seq<byte>) {
    [v / 0x100, v % 0x100]
  }

  /** Loads by a little-endian host. */
  function Read4(s: seq<byte>, at: nat): (v: u32)
    requires at + 4 <= |s|
  {
    Join4(s[at], s[at + 1], s[at + 2], s[at + 3])
  }

  function Read2(s: seq<byte>, at: nat): (v: u16)
    requires at + 2 <= |s|
  {
    Join2(s[at], s[at + 1])
  }

  /** OSSwapBigToHostInt32 and OSSwapBigToHostInt16 on a little-endian host. */
  function Swap32(v: u32): (r: u32) {
    Join4(v / 0x100 / 0x100 / 0x100, v / 0x100 / 0x100 % 0x100, v / 0x100 % 0x100, v % 0x100)
  }

  function Swap16(v: u16): (r: u16) {
    Join2(v / 0x100, v % 0x100)
  }

  lemma Host4Join4(a: byte, b: byte, c: byte, d: byte)
    ensures Host4(Join4(a, b, c, d)) == [a, b, c, d]
    ensures Swap32(Join4(a, b, c, d)) == Join4(d, c, b, a)
  {
    var v := Join4(a, b, c, d);
    assert v / 0x100 == b as int + 0x100 * (c as int + 0x100 * d as int);
    assert v / 0x100 / 0x100 == c as int + 0x100 * d as int;
    assert v / 0x100 / 0x100 / 0x100 == d;
  }

  lemma Join4Host4(v: u32)
    ensures Read4(Host4(v), 0) == v
  {}

  lemma Host2Join2(a: byte, b: byte)
    ensures Host2(Join2(a, b)) == [a, b]
    ensures Swap16(Join2(a, b)) == Join2(b, a)
  {}

  /** The w bytes at `at`, reversed in place. */
  function Flip(s: seq<byte>, at: nat, w: nat): (r: seq<byte>)
    requires at + w <= |s|
    ensures |r| == |s|
  {
    seq(|s|, k requires 0 <= k < |s| => if at <= k < at + w then s[2 * at + w - 1 - k] else s[k])
  }

  method Get32(a: array<byte>, at: nat) returns (v: u32)
    requires at + 4 <= a.Length
    ensures v == Read4(a[..], at)
  {
    v := Join4(a[at], a[at + 1], a[at + 2], a[at + 3]);
  }

  method Get16(a: array<byte>, at: nat) returns (v: u16)
    requires at + 2 <= a.Length
    ensures v == Read2(a[..], at)
  {
    v := Join2(a[at], a[at + 1]);
  }

  function Least(a: nat, b: nat): nat {
    if a < b then a else b
  }

  /** `r` replaces the bytes of `s` from `at` on. */
  function Splice(s: seq<byte>, at: nat, r: seq<byte>): (t: seq<byte>)
    requires at + |r| <= |s|
    ensures |t| == |s|
  {
    seq(|s|, k requires 0 <= k < |s| => if at <= k < at + |r| then r[k - at] else s[k])
  }

  lemma SpliceInside(p: seq<byte>, e: seq<byte>, q: seq<byte>, at: nat, r: seq<byte>)
    requires at + |r| <= |e|
    ensures Splice(p + e + q, |p| + at, r) == p + Splice(e, at, r) + q
  {}

  function Zeros(n: nat): (s: seq<byte>)
    ensures |s| == n
  {
    seq(n, _ => 0)
  }

  method Put32(a: array<byte>, at: nat, v: u32)
    requires at + 4 <= a.Length
    modifies a
    ensures a[..] == Splice(old(a[..]), at, Host4(v))
  {
    a[at], a[at + 1], a[at + 2], a[at + 3] :=
      v % 0x100, v / 0x100 % 0x100, v / 0x100 / 0x100 % 0x100, v / 0x100 / 0x100 / 0x100;
  }

  method Put16(a: array<byte>, at: nat, v: u16)
    requires at + 2 <= a.Length
    modifies a
    ensures a[..] == Splice(old(a[..]), at, Host2(v))
  {
    a[at], a[at + 1] := v % 0x100, v / 0x100;
  }

  /** bcopy/memcpy of `r` into the array. */
  method PutBytes(a: array<byte>, at: nat, r: seq<byte>)
    requires at + |r| <= a.Length
    modifies a
    ensures a[..] == Splice(old(a[..]), at, r)
  {
    for i := 0 to |r|
      invariant a[..] == Splice(old(a[..]), at, r[..i])
    {
      a[at + i] := r[i];
      assert r[..i + 1] == r[..i] + [r[i]];
    }
    assert r[..|r|] == r;
  }

  /** `field = SWAP32(field)` on the field stored at `at`. */
  method SwapField32(a: array<byte>, at: nat)
    requires at + 4 <= a.Length
    modifies a
    ensures a[..] == Flip(old(a[..]), at, 4)
  {
    ghost var s := a[..];
    var v := Get32(a, at);
    Put32(a, at, Swap32(v));
    Host4Join4(s[at], s[at + 1], s[at + 2], s[at + 3]);
    Host4Join4(s[at + 3], s[at + 2], s[at + 1], s[at]);
  }

  method SwapField16(a: array<byte>, at: nat)
    requires at + 2 <= a.Length
    modifies a
    ensures a[..] == Flip(old(a[..]), at, 2)
  {
    ghost var s := a[..];
    var v := Get16(a, at);
    Put16(a, at, Swap16(v));
    Host2Join2(s[at], s[at + 1]);
    Host2Join2(s[at + 1], s[at]);
  }
}
