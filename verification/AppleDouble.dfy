/**
 The AppleDouble file format (Appendix B of RFC 1740) with Apple's attribute table inside the
 Finder Info entry: what the bytes of an image are, in file order and in host order, and that
 the two endian swaps turn one into the other.
 */
module AppleDouble {
  import opened Bytes
  import opened EndianSwap

  /** An attribute name as the system admits it: 1 to 127 bytes, none of them NUL. */
  type Name = n: seq<byte> | 1 <= |n| <= 127 && 0 !in n witness [1]
  type Attrs = map<seq<byte>, seq<byte>>

  const ADH_VERSION: u32 := 0x0002_0000
  const AD_RESOURCE: u32 := 2
  const AD_FINDERINFO: u32 := 9
  const FINFO_OFFSET: nat := 50
  const FINFO_SIZE: nat := 32
  const PAD_OFFSET: nat := 82
  const ATTR_MAX_SIZE: nat := 128 * 1024
  const ATTR_MAX_HDR_SIZE: nat := 65536 + 18
  const XATTR_MAXNAMELEN: nat := 127
  const XATTR_MAXATTRLEN: nat := 4096
  const INT_MAX: nat := 0x7fff_ffff

  function Ascii(s: string): (b: seq<byte>)
    ensures |b| == |s|
  {
    seq(|s|, i requires 0 <= i < |s| => s[i] as int % 0x100)
  }

  const ADH_MACOSX: seq<byte> := Ascii("Mac OS X        ")
  const FINDERINFO_NAME: seq<byte> := Ascii("com.apple.FinderInfo")
  const RESOURCEFORK_NAME: seq<byte> := Ascii("com.apple.ResourceFork")
  const SECURITY_NAME: seq<byte> := Ascii("com.apple.acl.text")
  // The name the 10.4 build, which has no quarantine support, compares with.
  const QUARANTINE_NAME: seq<byte> := Ascii("Not the xattr you're looking for")

  /** Byte order of an image: of the host that works on it, or of the file. */
  datatype Order = Host | Big

  function Other(o: Order): Order {
    if o.Host? then Big else Host
  }

  function Enc4(o: Order, v: u32): (s: seq<byte>)
    ensures |s| == 4
  {
    if o.Host? then Host4(v) else Big4(v)
  }

  function Enc2(o: Order, v: u16): (s: seq<byte>)
    ensures |s| == 2
  {
    if o.Host? then Host2(v) else Big2(v)
  }

  /** The header fields that are not constants. */
  datatype Header = Header(finfoLength: u32, rsrcOffset: u32, rsrcLength: u32, inode: u32,
                           totalSize: u32, dataStart: u32, dataLength: u32, numAttrs: u16)

  function EncAdFixed(o: Order): (s: seq<byte>)
    ensures |s| == AD_ENTRIES
  {
    Enc4(o, ADH_MAGIC) + Enc4(o, ADH_VERSION) + ADH_MACOSX + Enc2(o, 2)
  }

  function EncAdEntry(o: Order, kind: u32, offset: u32, length: u32): (s: seq<byte>)
    ensures |s| == AD_ENTRY_SIZE
  {
    Enc4(o, kind) + Enc4(o, offset) + Enc4(o, length)
  }

  /** The header up to the Finder info. */
  function EncAd(o: Order, h: Header): (s: seq<byte>)
    ensures |s| == FINFO_OFFSET
  {
    EncAdFixed(o) + EncAdEntry(o, AD_FINDERINFO, 50, h.finfoLength) +
    EncAdEntry(o, AD_RESOURCE, h.rsrcOffset, h.rsrcLength)
  }

  /** The attribute header proper, from its magic on. */
  function EncAt(o: Order, h: Header): (s: seq<byte>)
    ensures |s| == AT_TABLE - AT_MAGIC
  {
    Enc4(o, ATTR_HDR_MAGIC) + Enc4(o, h.inode) + Enc4(o, h.totalSize) + Enc4(o, h.dataStart) + Enc4(o, h.dataLength) +
    Zeros(12) + Enc2(o, 0) + Enc2(o, h.numAttrs)
  }

  /** A name in the attribute table with the place of its value. */
  datatype Entry = Entry(offset: u32, length: u32, name: Name)

  function SizeOf(n: Name): (size: nat)
    ensures size >= AE_NAME + |n| + 1 && size % 4 == 0
  {
    EntryLength(|n| + 1)
  }

  function EncEntry(o: Order, e: Entry): (s: seq<byte>)
    ensures |s| == SizeOf(e.name)
  {
    Enc4(o, e.offset) + Enc4(o, e.length) + [0, 0, |e.name| + 1] + e.name + Zeros(SizeOf(e.name) - AE_NAME - |e.name|)
  }

  function EncTable(o: Order, es: seq<Entry>): (s: seq<byte>)
  {
    if es == [] then [] else EncEntry(o, es[0]) + EncTable(o, es[1..])
  }

  // ---- The swaps convert between the two orders ----

  lemma EncSwapped(o: Order, v: u32)
    ensures var s, t := Enc4(o, v), Enc4(Other(o), v); t == [s[3], s[2], s[1], s[0]]
    ensures Read4(Enc4(Host, v), 0) == v && Swap32(Read4(Enc4(Big, v), 0)) == v
  {
    Join4Host4(v);
    var s := Host4(v);
    Host4Join4(s[3], s[2], s[1], s[0]);
  }

  lemma AdFixedSwapped(o: Order)
    ensures FlipAdFixed(EncAdFixed(o)) == EncAdFixed(Other(o))
  {
    EncSwapped(o, ADH_MAGIC);
    EncSwapped(o, ADH_VERSION);
  }

  lemma AdEntrySwapped(o: Order, a: u32, b: u32, c: u32)
    ensures FlipAdEntry(EncAdEntry(o, a, b, c)) == EncAdEntry(Other(o), a, b, c)
  {
    EncSwapped(o, a);
    EncSwapped(o, b);
    EncSwapped(o, c);
  }

  lemma FixedParts(a: seq<byte>, b: seq<byte>, c: seq<byte>, d: seq<byte>, x: seq<byte>)
    requires |a| == |b| == 4 && |c| == 16 && |d| == 2
    ensures var s := a + b + c + d + x;
            s[0] == a[0] && s[1] == a[1] && s[2] == a[2] && s[3] == a[3] && s[24] == d[0] && s[25] == d[1]
  {}

  lemma AdCountOf(o: Order, s: seq<byte>)
    requires |s| >= AD_ENTRIES
    requires var m := Enc4(o, ADH_MAGIC); s[0] == m[0] && s[1] == m[1] && s[2] == m[2] && s[3] == m[3]
    requires s[24] == Enc2(o, 2)[0] && s[25] == Enc2(o, 2)[1]
    ensures AdCount(s) == 2
  {
    hide Swap32, Host4, Big4, Join4;
    EncSwapped(o, ADH_MAGIC);
    MagicsDiffer();
    assert Read4(s, 0) == Read4(Enc4(o, ADH_MAGIC), 0);
  }

  lemma AdCountIsTwo(o: Order, x: seq<byte>)
    ensures AdCount(EncAdFixed(o) + x) == 2
  {
    hide AdCount;
    FixedParts(Enc4(o, ADH_MAGIC), Enc4(o, ADH_VERSION), ADH_MACOSX, Enc2(o, 2), x);
    AdCountOf(o, EncAdFixed(o) + x);
  }

  lemma SwapAdParts(f: seq<byte>, e1: seq<byte>, e2: seq<byte>, x: seq<byte>)
    requires |f| == AD_ENTRIES && |e1| == |e2| == AD_ENTRY_SIZE
    requires AdCount(f + (e1 + (e2 + x))) == 2
    ensures AdFits(f + (e1 + (e2 + x)))
    ensures SwapAd(f + (e1 + (e2 + x))) == FlipAdFixed(f) + FlipAdEntry(e1) + FlipAdEntry(e2) + x
  {
    var t := e1 + (e2 + x);
    assert (f + t)[..26] == f && (f + t)[26..] == t;
    assert t[..12] == e1 && t[12..] == e2 + x && (e2 + x)[..12] == e2 && (e2 + x)[12..] == x;
    assert FlipAdEntries(e2 + x, 1) == FlipAdEntry(e2) + x;
    assert FlipAdEntries(t, 2) == FlipAdEntry(e1) + (FlipAdEntry(e2) + x);
    Append4(FlipAdFixed(f), FlipAdEntry(e1), FlipAdEntry(e2), x);
  }

  lemma Append4(f: seq<byte>, e1: seq<byte>, e2: seq<byte>, x: seq<byte>)
    ensures f + (e1 + (e2 + x)) == f + e1 + e2 + x
  {}

  lemma SwapAdImage(o: Order, h: Header, x: seq<byte>)
    ensures AdFits(EncAd(o, h) + x)
    ensures SwapAd(EncAd(o, h) + x) == EncAd(Other(o), h) + x
  {
    var f, e1, e2 := EncAdFixed(o), EncAdEntry(o, AD_FINDERINFO, 50, h.finfoLength),
      EncAdEntry(o, AD_RESOURCE, h.rsrcOffset, h.rsrcLength);
    Append4(f, e1, e2, x);
    AdCountIsTwo(o, e1 + (e2 + x));
    SwapAdParts(f, e1, e2, x);
    AdFixedSwapped(o);
    AdEntrySwapped(o, AD_FINDERINFO, 50, h.finfoLength);
    AdEntrySwapped(o, AD_RESOURCE, h.rsrcOffset, h.rsrcLength);
  }

  lemma FlipNext(p: seq<byte>, e: seq<byte>, w: seq<byte>, q: seq<byte>)
    ensures Flip(p + e + (w + q), |p|, |e|) == p + Flip(e, 0, |e|) + w + q
  {
    FlipInside(p, e, w + q, 0, |e|);
    AppendAssoc(p + Flip(e, 0, |e|), w, q);
  }

  lemma FlipAttrParts(a: seq<byte>, m: seq<byte>, i: seq<byte>, t: seq<byte>, d: seq<byte>, l: seq<byte>, z: seq<byte>,
      f: seq<byte>, n: seq<byte>)
    requires |a| == AT_MAGIC && |m| == |i| == |t| == |d| == |l| == 4 && |z| == 12 && |f| == |n| == 2
    ensures FlipAttrFixed(a + m + (i + (t + (d + (l + (z + (f + n))))))) ==
            a + Flip(m, 0, 4) + Flip(i, 0, 4) + Flip(t, 0, 4) + Flip(d, 0, 4) + Flip(l, 0, 4) + z + Flip(f, 0, 2) +
              Flip(n, 0, 2)
  {
    var p1 := a + Flip(m, 0, 4);
    var p2 := p1 + Flip(i, 0, 4);
    var p3 := p2 + Flip(t, 0, 4);
    var p4 := p3 + Flip(d, 0, 4);
    var p5 := p4 + Flip(l, 0, 4);
    FlipNext(a, m, i, t + (d + (l + (z + (f + n)))));
    FlipNext(p1, i, t, d + (l + (z + (f + n))));
    FlipNext(p2, t, d, l + (z + (f + n)));
    FlipNext(p3, d, l, z + (f + n));
    FlipNext(p4, l, z, f + n);
    AppendAssoc(p5 + z, f, n);
    FlipInside(p5 + z, f, n, 0, 2);
    FlipInside(p5 + z + Flip(f, 0, 2), n, [], 0, 2);
    assert p5 + z + Flip(f, 0, 2) + n + [] == p5 + z + Flip(f, 0, 2) + n;
    assert p5 + z + Flip(f, 0, 2) + Flip(n, 0, 2) + [] == p5 + z + Flip(f, 0, 2) + Flip(n, 0, 2);
  }

  lemma AtParts(a: seq<byte>, m: seq<byte>, i: seq<byte>, t: seq<byte>, d: seq<byte>, l: seq<byte>, z: seq<byte>,
      f: seq<byte>, n: seq<byte>)
    ensures a + (m + i + t + d + l + z + f + n) == a + m + (i + (t + (d + (l + (z + (f + n))))))
    ensures a + (m + i + t + d + l + z + f + n) == a + m + i + t + d + l + z + f + n
  {}

  lemma AtSwapped(o: Order, h: Header, a: seq<byte>)
    requires |a| == AT_MAGIC
    ensures FlipAttrFixed(a + EncAt(o, h)) == a + EncAt(Other(o), h)
  {
    var q := Other(o);
    var m, i, t, d, l := ATTR_HDR_MAGIC, h.inode, h.totalSize, h.dataStart, h.dataLength;
    var z, n := Zeros(12), h.numAttrs;
    AtParts(a, Enc4(o, m), Enc4(o, i), Enc4(o, t), Enc4(o, d), Enc4(o, l), z, Enc2(o, 0), Enc2(o, n));
    AtParts(a, Enc4(q, m), Enc4(q, i), Enc4(q, t), Enc4(q, d), Enc4(q, l), z, Enc2(q, 0), Enc2(q, n));
    FlipAttrParts(a, Enc4(o, m), Enc4(o, i), Enc4(o, t), Enc4(o, d), Enc4(o, l), z, Enc2(o, 0), Enc2(o, n));
    FlipEnc4(o, m);
    FlipEnc4(o, i);
    FlipEnc4(o, t);
    FlipEnc4(o, d);
    FlipEnc4(o, l);
    FlipEnc2(o, 0);
    FlipEnc2(o, n);
  }

  lemma FlipEnc4(o: Order, v: u32)
    ensures Flip(Enc4(o, v), 0, 4) == Enc4(Other(o), v)
  {
    EncSwapped(o, v);
  }

  lemma FlipEnc2(o: Order, v: u16)
    ensures Flip(Enc2(o, v), 0, 2) == Enc2(Other(o), v)
  {}

  lemma AttrCountIs(o: Order, h: Header, a: seq<byte>, x: seq<byte>)
    requires |a| == AT_MAGIC
    ensures AttrCount(a + EncAt(o, h) + x) == h.numAttrs
  {
    var s := a + EncAt(o, h) + x;
    EncSwapped(o, ATTR_HDR_MAGIC);
    assert Read4(s, AT_MAGIC) == Read4(Enc4(o, ATTR_HDR_MAGIC), 0);
    var n := Enc2(o, h.numAttrs);
    assert Read2(s, AT_NUM_ATTRS) == Join2(n[0], n[1]);
    Host2Join2(n[0], n[1]);
  }

  lemma FlipEntryParts(a: seq<byte>, b: seq<byte>, q: seq<byte>)
    requires |a| == |b| == 4 && |q| >= 3 && q[0] == q[1] == 0
    ensures FlipEntry(a + b + q) == Flip(a, 0, 4) + Flip(b, 0, 4) + q
  {}

  lemma EntrySwapped(o: Order, e: Entry)
    ensures FlipEntry(EncEntry(o, e)) == EncEntry(Other(o), e)
  {
    hide FlipEntry, Flip, Enc4;
    var q: seq<byte> := [0, 0, |e.name| + 1] + e.name + Zeros(SizeOf(e.name) - AE_NAME - |e.name|);
    EntryParts(o, e, q);
    EntryParts(Other(o), e, q);
    FlipEntryParts(Enc4(o, e.offset), Enc4(o, e.length), q);
    FlipEnc4(o, e.offset);
    FlipEnc4(o, e.length);
  }

  lemma EntryParts(o: Order, e: Entry, q: seq<byte>)
    requires q == [0, 0, |e.name| + 1] + e.name + Zeros(SizeOf(e.name) - AE_NAME - |e.name|)
    ensures EncEntry(o, e) == Enc4(o, e.offset) + Enc4(o, e.length) + q
  {}

  lemma FirstEntry(o: Order, e: Entry, q: seq<byte>)
    ensures var t := EncEntry(o, e) + q;
            && EntrySpan(t) == |EncEntry(o, e)|
            && t[..EntrySpan(t)] == EncEntry(o, e) && t[EntrySpan(t)..] == q
  {}

  lemma {:induction false} TableSwapped(o: Order, es: seq<Entry>, x: seq<byte>)
    ensures TableFits(EncTable(o, es) + x, |es|)
    ensures FlipTable(EncTable(o, es) + x, |es|) == EncTable(Other(o), es) + x
  {
    hide EncEntry, FlipEntry, EntrySpan;
    if es == [] {
      assert EncTable(o, es) + x == x;
    } else {
      FirstEntry(o, es[0], EncTable(o, es[1..]) + x);
      AppendAssoc(EncEntry(o, es[0]), EncTable(o, es[1..]), x);
      EntrySwapped(o, es[0]);
      TableSwapped(o, es[1..], x);
      AppendAssoc(EncEntry(Other(o), es[0]), EncTable(Other(o), es[1..]), x);
    }
  }

  lemma SwapAttrImage(o: Order, a: seq<byte>, h: Header, es: seq<Entry>, x: seq<byte>)
    requires |a| == AT_MAGIC && h.numAttrs == |es|
    ensures AttrFits(a + EncAt(o, h) + (EncTable(o, es) + x))
    ensures SwapAttr(a + EncAt(o, h) + (EncTable(o, es) + x)) == a + EncAt(Other(o), h) + (EncTable(Other(o), es) + x)
  {
    var f, t := a + EncAt(o, h), EncTable(o, es) + x;
    AttrCountIs(o, h, a, t);
    assert (f + t)[..AT_TABLE] == f && (f + t)[AT_TABLE..] == t;
    TableSwapped(o, es, x);
    AtSwapped(o, h, a);
  }
}
