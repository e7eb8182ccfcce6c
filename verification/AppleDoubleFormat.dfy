/** What the bytes of a packed file are, and what genuine files unpack to: the format in plain numbers. */
module AppleDoubleFormat {
  import opened Bytes
  import opened EndianSwap
  import opened AppleDouble
  import opened AppleDoublePack
  import opened AppleDoubleUnpack
  import opened AppleDoubleRoundTrip

  /** The bytes of `v`, most significant first. */
  predicate BigEndian(s: seq<byte>, v: int) {
    |s| == 4 && ((s[0] as int * 0x100 + s[1] as int) * 0x100 + s[2] as int) * 0x100 + s[3] as int == v
  }

  lemma BigIs(v: u32)
    ensures BigEndian(Enc4(Big, v), v)
  {}

  // Magic, version, "Mac OS X" with eight spaces, and the number of entries.
  const START: seq<byte> :=
    [0, 5, 0x16, 7] + [0, 2, 0, 0] + [77, 97, 99, 32, 79, 83, 32, 88, 32, 32, 32, 32, 32, 32, 32, 32] + [0, 2]

  lemma Filler()
    ensures ADH_MACOSX == [77, 97, 99, 32, 79, 83, 32, 88, 32, 32, 32, 32, 32, 32, 32, 32]
  {}

  lemma StartIs()
    ensures EncAdFixed(Big) == START
  {
    Filler();
    assert Enc4(Big, ADH_MAGIC) == [0, 5, 0x16, 7] && Enc4(Big, ADH_VERSION) == [0, 2, 0, 0];
    assert Enc2(Big, 2) == [0, 2];
  }

  lemma Constants()
    ensures Enc4(Big, AD_FINDERINFO) == [0, 0, 0, 9] && Enc4(Big, 50) == [0, 0, 0, 50]
    ensures Enc4(Big, AD_RESOURCE) == [0, 0, 0, 2] && Enc4(Big, ATTR_HDR_MAGIC) == [65, 84, 84, 82]
    ensures Enc2(Big, 0) == [0, 0]
  {}

  /** Consecutive pieces of a file. */
  lemma Pieces(p: seq<byte>, a: seq<byte>, b: seq<byte>, c: seq<byte>, q: seq<byte>)
    ensures var s, k := p + a + b + c + q, |p|;
            && s[k..k + |a|] == a && s[k + |a|..k + |a| + |b|] == b
            && s[k + |a| + |b|..k + |a| + |b| + |c|] == c
  {}

  lemma HeaderBytes(h: Header, x: seq<byte>)
    ensures var f := EncAd(Big, h) + x;
            && f[..26] == START
            && f[26..30] == [0, 0, 0, 9] && f[30..34] == [0, 0, 0, 50] && BigEndian(f[34..38], h.finfoLength)
            && f[38..42] == [0, 0, 0, 2] && BigEndian(f[42..46], h.rsrcOffset) && BigEndian(f[46..50], h.rsrcLength)
  {
    hide Enc4, EncAdFixed, BigEndian;
    StartIs();
    Constants();
    BigIs(h.finfoLength);
    BigIs(h.rsrcOffset);
    BigIs(h.rsrcLength);
    var a, b, c := Enc4(Big, AD_FINDERINFO), Enc4(Big, 50), Enc4(Big, h.finfoLength);
    var d, e, g := Enc4(Big, AD_RESOURCE), Enc4(Big, h.rsrcOffset), Enc4(Big, h.rsrcLength);
    var s := EncAdFixed(Big);
    var f := EncAd(Big, h) + x;
    assert f == s + a + b + c + (d + e + g + x) && f == (s + a + b + c) + d + e + g + x;
    Pieces(s, a, b, c, d + e + g + x);
    Pieces(s + a + b + c, d, e, g, x);
  }

  lemma AttrHeaderBytes(p: seq<byte>, h: Header, x: seq<byte>)
    requires |p| == 84
    ensures var f := p + EncAt(Big, h) + x;
            && f[84..88] == [65, 84, 84, 82] && BigEndian(f[88..92], h.inode) && BigEndian(f[92..96], h.totalSize)
            && BigEndian(f[96..100], h.dataStart) && BigEndian(f[100..104], h.dataLength)
            && f[104..118] == Zeros(14) && f[118] as int * 0x100 + f[119] as int == h.numAttrs
  {
    hide Enc4, BigEndian, Enc2;
    Constants();
    BigIs(h.inode);
    BigIs(h.totalSize);
    BigIs(h.dataStart);
    BigIs(h.dataLength);
    CountBytes(h.numAttrs);
    var m, i, t := Enc4(Big, ATTR_HDR_MAGIC), Enc4(Big, h.inode), Enc4(Big, h.totalSize);
    var d, l, z := Enc4(Big, h.dataStart), Enc4(Big, h.dataLength), Zeros(12) + Enc2(Big, 0);
    var n := Enc2(Big, h.numAttrs);
    var f := p + EncAt(Big, h) + x;
    assert f == p + m + i + t + (d + l + z + (n + x)) && f == (p + m + i + t) + d + l + z + (n + x);
    Pieces(p, m, i, t, d + l + z + (n + x));
    Pieces(p + m + i + t, d, l, z, n + x);
    assert z == Zeros(14);
    assert f == (p + m + i + t + d + l + z) + n + x && f[118..120] == n;
    assert f[118] == n[0] && f[119] == n[1];
  }

  lemma CountBytes(n: u16)
    ensures var s := Enc2(Big, n); |s| == 2 && s[0] as int * 0x100 + s[1] as int == n
  {}

  /** The header of every packed file. */
  lemma PackedHeader(src: Source)
    requires Packable(src)
    ensures var f, ns, end := PackFile(src), Ordinary(Listed(src)), HeaderEnd(src);
            var vals := Values(ns, src.attrs);
            && |f| == end + |Rsrc(src, Listed(src))| && f[end..] == Rsrc(src, Listed(src)) && end >= 82
            && f[..26] == START
            && f[26..30] == [0, 0, 0, 9] && f[30..34] == [0, 0, 0, 50] && BigEndian(f[34..38], end - 50)
            && f[38..42] == [0, 0, 0, 2] && BigEndian(f[42..46], end) && BigEndian(f[46..50], |Rsrc(src, Listed(src))|)
            && f[50..82] == FinderInfo(src, Listed(src))
            && (vals == [] ==> end == 82)
            && (vals != [] ==>
                  && end == 120 + TableSize(ns) + |vals| && f[82..84] == [0, 0] && f[84..88] == [65, 84, 84, 82]
                  && BigEndian(f[88..92], src.inode) && BigEndian(f[92..96], end)
                  && BigEndian(f[96..100], 120 + TableSize(ns)) && BigEndian(f[100..104], |vals|)
                  && f[104..118] == Zeros(14) && f[118] as int * 0x100 + f[119] as int == |ns|
                  && f[120 + TableSize(ns)..end] == vals)
  {
    hide EncAd, EncAt, Values, Layout, Ordinary, Listed, EncTable, TableSize, BigEndian, FinderInfo, Rsrc;
    var ns, h, rsrc := Ordinary(Listed(src)), PackHeader(src), Rsrc(src, Listed(src));
    var vals := Values(ns, src.attrs);
    var finfo := FinderInfo(src, Listed(src));
    if vals != [] {
      WithValues(h, finfo, ns, src.attrs, rsrc);
    } else {
      HeaderBytes(h, finfo + rsrc);
      assert EncAd(Big, h) + finfo + rsrc == EncAd(Big, h) + (finfo + rsrc);
      Pieces(EncAd(Big, h), finfo, rsrc, [], []);
      assert EncAd(Big, h) + finfo + rsrc + [] + [] == EncAd(Big, h) + finfo + rsrc;
    }
  }

  lemma WithValues(h: Header, finfo: seq<byte>, ns: seq<Name>, attrs: Attrs, rsrc: seq<byte>)
    requires |finfo| == FINFO_SIZE && DataInBuffer(ns, attrs)
    ensures var es, vals := Layout(ns, attrs, DataStart(ns)), Values(ns, attrs);
            var f := EncAd(Big, h) + finfo + [0, 0] + EncAt(Big, h) + EncTable(Big, es) + vals + rsrc;
            var end := 120 + TableSize(ns) + |vals|;
            && |f| == end + |rsrc| && f[end..] == rsrc
            && f[..26] == START
            && f[26..30] == [0, 0, 0, 9] && f[30..34] == [0, 0, 0, 50] && BigEndian(f[34..38], h.finfoLength)
            && f[38..42] == [0, 0, 0, 2] && BigEndian(f[42..46], h.rsrcOffset) && BigEndian(f[46..50], h.rsrcLength)
            && f[50..82] == finfo && f[82..84] == [0, 0] && f[84..88] == [65, 84, 84, 82]
            && BigEndian(f[88..92], h.inode) && BigEndian(f[92..96], h.totalSize)
            && BigEndian(f[96..100], h.dataStart) && BigEndian(f[100..104], h.dataLength)
            && f[104..118] == Zeros(14) && f[118] as int * 0x100 + f[119] as int == h.numAttrs
            && f[120 + TableSize(ns)..end] == vals
  {
    hide EncAd, EncAt, Values, Layout, EncTable, TableSize, BigEndian;
    var es, vals := Layout(ns, attrs, DataStart(ns)), Values(ns, attrs);
    EncTableLength(Big, es, ns);
    var p, t := EncAd(Big, h), EncTable(Big, es);
    var a, pad: seq<byte> := EncAt(Big, h), [0, 0];
    var f := p + finfo + pad + a + t + vals + rsrc;
    var rest := t + vals + rsrc;
    assert f == p + (finfo + pad + a + rest);
    HeaderBytes(h, finfo + pad + a + rest);
    assert f == (p + finfo + pad) + a + rest;
    AttrHeaderBytes(p + finfo + pad, h, rest);
    assert f == p + finfo + pad + a + rest;
    Pieces(p, finfo, pad, a, rest);
    assert f == (p + finfo + pad + a) + t + vals + rsrc + [];
    Pieces(p + finfo + pad + a, t, vals, rsrc, []);
    assert f[120 + |t| + |vals|..] == rsrc;
  }

  // ---- A genuine file ----

  /** A file with Finder info alone: 82 bytes. */
  function FinderFile(finfo: seq<byte>): seq<byte> {
    START +
    ([0, 0, 0, 9] + [0, 0, 0, 50] + [0, 0, 0, 32]) +
    ([0, 0, 0, 2] + [0, 0, 0, 82] + [0, 0, 0, 0]) + finfo
  }

  /** It is unpacked to its Finder info and nothing else, whatever the destination had. */
  lemma FinderFileUnpacked(finfo: seq<byte>, dst: Attrs, stat: bool)
    requires |finfo| == 32 && finfo != Zeros(32)
    ensures var f := FinderFile(finfo);
            |f| == 82 && Walkable(f) && UnpackFile(f, dst, stat) == Outcome(true, map[FINDERINFO_NAME := finfo])
  {
    hide Walkable, UnpackFile, EncAdFixed;
    var h := Header(32, 82, 0, 0, 0, 0, 0, 0);
    StartIs();
    Constants();
    assert Enc4(Big, 32) == [0, 0, 0, 32] && Enc4(Big, 82) == [0, 0, 0, 82] && Enc4(Big, 0) == [0, 0, 0, 0];
    assert EncAd(Big, h) + finfo + [] == FinderFile(finfo);
    UnpackForksOnly(h, finfo, [], dst, stat);
  }

  // ---- A file with two attributes ----

  /** "A" with three bytes and "BC" with one. */
  function TwoAttrs(): Source {
    Source([[65], [66, 67]], map[[65] := [1, 2, 3], [66, 67] := [4]], 7)
  }

  /** Its packed file: 156 bytes. */
  const TWO_ATTRS_FILE: seq<byte> :=
    START +
    ([0, 0, 0, 9] + [0, 0, 0, 50] + [0, 0, 0, 106]) +
    ([0, 0, 0, 2] + [0, 0, 0, 156] + [0, 0, 0, 0]) + Zeros(32) + [0, 0] +
    ([65, 84, 84, 82] + [0, 0, 0, 7] + [0, 0, 0, 156] + [0, 0, 0, 152] + [0, 0, 0, 4] + Zeros(12) + [0, 0] + [0, 2]) +
    ([0, 0, 0, 152, 0, 0, 0, 3, 0, 0, 2, 65, 0, 0, 0, 0] + [0, 0, 0, 155, 0, 0, 0, 1, 0, 0, 3, 66, 67, 0, 0, 0]) +
    [1, 2, 3, 4]

  lemma TwoAttrsLaidOut()
    ensures var src := TwoAttrs();
            && Ordinary(src.names) == src.names && Listed(src) == src.names && TableSize(src.names) == 32
            && Values(src.names, src.attrs) == [1, 2, 3, 4]
            && FinderInfo(src, src.names) == Zeros(32) && Rsrc(src, src.names) == []
  {
    hide FinderInfo, Rsrc;
    var src := TwoAttrs();
    var a: Name, b: Name := [65], [66, 67];
    assert |FINDERINFO_NAME| == 20 && |RESOURCEFORK_NAME| == 22;
    assert src.names == [a] + [b];
    OneThenTwo([], a, src.attrs);
    OneThenTwo([a], b, src.attrs);
    assert [] + [a] == [a];
    NoFork(src);
  }

  lemma NoFork(src: Source)
    requires FINDERINFO_NAME !in src.names && RESOURCEFORK_NAME !in src.names
    ensures FinderInfo(src, src.names) == Zeros(32) && Rsrc(src, src.names) == []
  {}

  lemma OneThenTwo(ns: seq<Name>, n: Name, attrs: Attrs)
    requires !IsFork(n)
    ensures Ordinary(ns + [n]) == Ordinary(ns) + [n] && TableSize(ns + [n]) == TableSize(ns) + SizeOf(n)
    ensures NamesLength(ns + [n]) == NamesLength(ns) + |n| + 1
    ensures Values(ns + [n], attrs) == Values(ns, attrs) + if Kept(Value(attrs, n)) then Value(attrs, n) else []
  {
    assert (ns + [n])[..|ns|] == ns;
  }

  lemma TwoAttrsPackable()
    ensures var src := TwoAttrs();
            && Packable(src) && HeaderEnd(src) == 156 && DataStart(src.names) == 152
            && PackHeader(src) == Header(106, 156, 0, 7, 156, 152, 4, 2)
  {
    hide Ordinary, Listed, Values, TableSize, FinderInfo, Rsrc;
    var src := TwoAttrs();
    TwoAttrsLaidOut();
    assert |SECURITY_NAME| == 18;
    assert src.names[0] == [65] && src.names[1] == [66, 67];
    assert [66, 67] in src.names && [65] in src.names;
  }

  lemma TwoValues(a: Name, b: Name, attrs: Attrs)
    requires !IsFork(a) && !IsFork(b) && Kept(Value(attrs, a)) && Kept(Value(attrs, b))
    ensures Values([a], attrs) == Value(attrs, a) && Values([a] + [b], attrs) == Value(attrs, a) + Value(attrs, b)
  {
    hide TableSize, SizeOf, IsFork, Values, Value, Kept;
    assert [] + [a] == [a];
    OneThenTwo([], a, attrs);
    OneThenTwo([a], b, attrs);
    NothingLaidOut(attrs, 0);
    assert [] + Value(attrs, a) == Value(attrs, a);
  }

  lemma TwoLaidOut(a: Name, b: Name, attrs: Attrs, start: nat)
    requires !IsFork(a) && !IsFork(b) && Kept(Value(attrs, a)) && Kept(Value(attrs, b))
    requires start + |Value(attrs, a)| + |Value(attrs, b)| <= ATTR_MAX_SIZE
    ensures |Values([a] + [b], attrs)| == |Value(attrs, a)| + |Value(attrs, b)|
    ensures Layout([a] + [b], attrs, start) ==
            [Entry(start, |Value(attrs, a)|, a), Entry(start + |Value(attrs, a)|, |Value(attrs, b)|, b)]
  {
    hide IsFork, Values, Layout, Value, Kept;
    assert [] + [a] == [a];
    TwoValues(a, b, attrs);
    NothingLaidOut(attrs, start);
    LayoutStep([], a, attrs, start);
    LayoutStep([a], b, attrs, start);
    var d, e := Place(a, attrs, start), Place(b, attrs, start + |Value(attrs, a)|);
    assert [] + [d] + [e] == [d, e];
  }

  lemma NothingLaidOut(attrs: Attrs, start: nat)
    requires start <= ATTR_MAX_SIZE
    ensures Values([], attrs) == [] && Layout([], attrs, start) == []
  {}

  lemma TwoAttrsTable()
    ensures var src := TwoAttrs();
            DataInBuffer(src.names, src.attrs) &&
            Layout(src.names, src.attrs, 152) == [Entry(152, 3, [65]), Entry(155, 1, [66, 67])]
  {
    hide TableSize, Values, Layout, Ordinary, Listed, FinderInfo, Rsrc;
    TwoAttrsLaidOut();
    var src := TwoAttrs();
    var a: Name, b: Name := [65], [66, 67];
    assert src.names == [a] + [b];
    assert |FINDERINFO_NAME| == 20 && |RESOURCEFORK_NAME| == 22;
    TwoLaidOut(a, b, src.attrs, 152);
  }

  lemma TwoEntries()
    ensures EncTable(Big, [Entry(152, 3, [65]), Entry(155, 1, [66, 67])]) ==
            [0, 0, 0, 152, 0, 0, 0, 3, 0, 0, 2, 65, 0, 0, 0, 0] + [0, 0, 0, 155, 0, 0, 0, 1, 0, 0, 3, 66, 67, 0, 0, 0]
  {
    hide EncEntry;
    var d, e := Entry(152, 3, [65]), Entry(155, 1, [66, 67]);
    TwoEncoded();
    assert [d, e][1..] == [e] && [e][1..] == [];
    assert EncEntry(Big, e) + [] == EncEntry(Big, e);
  }

  lemma TwoEncoded()
    ensures EncEntry(Big, Entry(152, 3, [65])) == [0, 0, 0, 152, 0, 0, 0, 3, 0, 0, 2, 65, 0, 0, 0, 0]
    ensures EncEntry(Big, Entry(155, 1, [66, 67])) == [0, 0, 0, 155, 0, 0, 0, 1, 0, 0, 3, 66, 67, 0, 0, 0]
  {
    assert SizeOf([65]) == SizeOf([66, 67]) == 16;
    assert Enc4(Big, 152) == [0, 0, 0, 152] && Enc4(Big, 155) == [0, 0, 0, 155];
    assert Enc4(Big, 3) == [0, 0, 0, 3] && Enc4(Big, 1) == [0, 0, 0, 1];
    assert Zeros(4) == [0, 0, 0, 0] && Zeros(3) == [0, 0, 0];
  }

  lemma HeaderEncoded()
    ensures var h := Header(106, 156, 0, 7, 156, 152, 4, 2);
            && EncAd(Big, h) == START +
                 ([0, 0, 0, 9] + [0, 0, 0, 50] + [0, 0, 0, 106]) + ([0, 0, 0, 2] + [0, 0, 0, 156] + [0, 0, 0, 0])
            && EncAt(Big, h) ==
                 [65, 84, 84, 82] + [0, 0, 0, 7] + [0, 0, 0, 156] + [0, 0, 0, 152] + [0, 0, 0, 4] +
                 Zeros(12) + [0, 0] + [0, 2]
  {
    hide EncAdFixed;
    StartIs();
    Constants();
    assert Enc4(Big, 106) == [0, 0, 0, 106] && Enc4(Big, 156) == [0, 0, 0, 156] && Enc4(Big, 0) == [0, 0, 0, 0];
    assert Enc4(Big, 7) == [0, 0, 0, 7] && Enc4(Big, 152) == [0, 0, 0, 152] && Enc4(Big, 4) == [0, 0, 0, 4];
    assert Enc2(Big, 2) == [0, 2];
  }

  /** This is what packing gives. */
  lemma TwoAttrsPacked()
    ensures Packable(TwoAttrs()) && PackFile(TwoAttrs()) == TWO_ATTRS_FILE
  {
    hide EncAd, EncAt, EncTable, Ordinary, Listed, Values, TableSize, FinderInfo, Rsrc, Layout, Packable, DataStart,
        HeaderEnd, PackHeader, TwoAttrs;
    TwoAttrsPackable();
    TwoAttrsLaidOut();
    TwoAttrsTable();
    TwoEntries();
    HeaderEncoded();
    assert TWO_ATTRS_FILE + [] == TWO_ATTRS_FILE;
  }

  /** And unpacking this gives the two attributes. */
  lemma TwoAttrsUnpacked(dst: Attrs, stat: bool)
    ensures Walkable(TWO_ATTRS_FILE)
    ensures UnpackFile(TWO_ATTRS_FILE, dst, stat) == Outcome(true, map[[65] := [1, 2, 3], [66, 67] := [4]])
  {
    hide PackFile, UnpackFile, Walkable, Packable, HeaderEnd, Ordinary, Listed, Values, TableSize, FinderInfo, Rsrc;
    TwoAttrsPacked();
    TwoAttrsPackable();
    RoundTrip(TwoAttrs(), dst, stat);
    TwoAttrsLaidOut();
    assert |QUARANTINE_NAME| == 32;
    assert RestoreAll(TwoAttrs().names, TwoAttrs().attrs) == map[[65] := [1, 2, 3], [66, 67] := [4]];
  }

  // ---- The limits ----

  /** Values are kept from 1 to 4096 bytes; 65554 bytes of a file are looked at, and as many of a list of names. */
  lemma Limits(v: seq<byte>, file: seq<byte>, src: Source)
    ensures Kept(v) <==> 1 <= |v| <= 4096
    ensures HeaderSize(file) == if |file| < 65554 then |file| else 65554
    ensures Listed(src) == if NamesLength(src.names) <= 65554 then src.names else []
  {}

  /** The name in an entry has 2 to 128 bytes and ends with a NUL; name and value end in what was read. */
  lemma GoodEntries(b: seq<byte>, at: nat, o: seq<byte>, l: seq<byte>)
    requires at + 12 <= |b| && o == b[at..at + 4] && l == b[at + 4..at + 8]
    ensures var offset, length, n := Read4(o, 0) as int, Read4(l, 0) as int, b[at + 10] as int;
            GoodEntry(b, at) <==>
            && 2 <= n <= 128 && at + 11 + n <= |b| && b[at + 11 + n - 1] == 0
            && offset + length <= |b|
  {
    hide Join4;
    assert o[0] == b[at] && o[1] == b[at + 1] && o[2] == b[at + 2] && o[3] == b[at + 3];
    assert l[0] == b[at + 4] && l[1] == b[at + 5] && l[2] == b[at + 6] && l[3] == b[at + 7];
  }
}
