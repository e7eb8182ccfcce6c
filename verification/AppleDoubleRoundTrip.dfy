/** What unpacking a packed file restores, and exactly when that is everything. */
module AppleDoubleRoundTrip {
  import opened Bytes
  import opened EndianSwap
  import opened AppleDouble
  import opened AppleDoublePack
  import opened AppleDoubleUnpack

  /** A value as it comes back: too large a value comes back empty. */
  function Restore(attrs: Attrs, n: seq<byte>): seq<byte> {
    if Kept(Value(attrs, n)) then Value(attrs, n) else []
  }

  function RestoreAll(ns: seq<Name>, attrs: Attrs): Attrs {
    map n: seq<byte> | n in ns && n != QUARANTINE_NAME :: Restore(attrs, n)
  }

  /** The attributes that come back from a packed file. */
  function Restored(src: Source): Attrs {
    var listed := Listed(src);
    var ns := Ordinary(listed);
    var finfo, rsrc := FinderInfo(src, listed), Rsrc(src, listed);
    var m: Attrs := if |Values(ns, src.attrs)| > 0 then RestoreAll(ns, src.attrs) else map[];
    AddForks(m, finfo, rsrc)
  }

  /** The Finder info unless it is all zero, the resource fork unless it is empty. */
  function AddForks(m: Attrs, finfo: seq<byte>, rsrc: seq<byte>): Attrs {
    var m1 := if finfo == Zeros(FINFO_SIZE) then m else m[FINDERINFO_NAME := finfo];
    if rsrc == [] then m1 else m1[RESOURCEFORK_NAME := rsrc]
  }

  // ---- Reading back the table ----

  lemma {:induction false} CStringOf(n: seq<byte>, q: seq<byte>)
    requires 0 !in n
    ensures CString(n + [0] + q) == n
  {
    var s := n + [0] + q;
    if n == [] {
      assert s[0] == 0;
    } else {
      assert s[0] == n[0] && s[1..] == n[1..] + [0] + q;
      CStringOf(n[1..], q);
    }
  }

  lemma EntryFields(p: seq<byte>, a: seq<byte>, b: seq<byte>, f: seq<byte>, n: seq<byte>, z: seq<byte>, q: seq<byte>)
    requires |a| == |b| == 4 && |f| == 3 && |z| >= 1
    ensures var c, at := p + (a + b + f + n + z) + q, |p|;
            && c[at..at + 4] == a && c[at + 4..at + 8] == b && c[at + AE_NAMELEN] == f[2]
            && c[at + AE_NAME..at + AE_NAME + |n| + 1] == n + [z[0]]
  {}

  lemma EntryReadsRaw(p: seq<byte>, off: u32, len: u32, n: Name, z: seq<byte>, q: seq<byte>)
    requires |z| >= 1 && z[0] == 0
    ensures var c, at := p + (Enc4(Host, off) + Enc4(Host, len) + [0, 0, |n| + 1] + n + z) + q, |p|;
            && c[at + AE_NAMELEN] == |n| + 1 && Read4(c, at) == off && Read4(c, at + 4) == len
            && c[at + AE_NAME..at + AE_NAME + |n| + 1] == n + [0]
            && (GoodEntry(c, at) <==> off as int + len as int <= |c|)
  {
    var c, at := p + (Enc4(Host, off) + Enc4(Host, len) + [0, 0, |n| + 1] + n + z) + q, |p|;
    hide Enc4, CString, Read4;
    EntryFields(p, Enc4(Host, off), Enc4(Host, len), [0, 0, |n| + 1], n, z, q);
    ReadEnc(c, at, off);
    ReadEnc(c, at + 4, len);
    assert c[at + AE_NAME + |n|] == c[at + AE_NAME..at + AE_NAME + |n| + 1][|n|];
  }

  /** An entry of a packed file passes the checks exactly when its value lies inside the buffer. */
  lemma EntryReads(p: seq<byte>, e: Entry, q: seq<byte>)
    ensures var c, at := p + EncEntry(Host, e) + q, |p|;
            && (GoodEntry(c, at) <==> e.offset as int + e.length as int <= |c|)
            && (GoodEntry(c, at) ==>
                  && EntryName(c, at) == e.name
                  && EntryValue(c, at) == c[e.offset..e.offset as int + e.length as int]
                  && EntryLength(c[at + AE_NAMELEN]) == |EncEntry(Host, e)|)
  {
    hide Enc4, CString, Read4, GoodEntry, EntryLength;
    var z := Zeros(SizeOf(e.name) - AE_NAME - |e.name|);
    EntryReadsRaw(p, e.offset, e.length, e.name, z, q);
    CStringOf(e.name, []);
    assert e.name + [0] + [] == e.name + [0];
  }

  /** Every entry's value lies where the entry says. */
  ghost predicate ValuesInPlace(c: seq<byte>, es: seq<Entry>, attrs: Attrs) {
    forall i | 0 <= i < |es| ::
      es[i].offset as int + es[i].length as int <= |c| &&
      c[es[i].offset..es[i].offset as int + es[i].length as int] == Restore(attrs, es[i].name)
  }

  ghost predicate Names(es: seq<Entry>, ns: seq<Name>) {
    |es| == |ns| && forall i | 0 <= i < |ns| :: es[i].name == ns[i]
  }

  lemma RestoreNone(attrs: Attrs)
    ensures RestoreAll([], attrs) == map[]
  {}

  lemma RestoreStep(ns: seq<Name>, i: nat, attrs: Attrs)
    requires i < |ns|
    ensures SetAttr(RestoreAll(ns[..i], attrs), ns[i], Restore(attrs, ns[i])) == RestoreAll(ns[..i + 1], attrs)
  {
    assert ns[..i + 1] == ns[..i] + [ns[i]];
  }

  lemma Regrouped(p: seq<byte>, e: seq<byte>, r: seq<byte>, q: seq<byte>)
    ensures p + (e + r) + q == p + e + (r + q)
    ensures p + (e + r) + q == p + e + r + q
  {}

  lemma {:induction false} ParseRestores(p: seq<byte>, es: seq<Entry>, q: seq<byte>, ns: seq<Name>, i: nat,
      attrs: Attrs)
    requires i <= |es| && Names(es, ns)
    requires ValuesInPlace(p + EncTable(Host, es[i..]) + q, es, attrs)
    ensures ParseTable(p + EncTable(Host, es[i..]) + q, |p|, |es| - i, RestoreAll(ns[..i], attrs)) ==
            Outcome(true, RestoreAll(ns, attrs))
    decreases |es| - i
  {
    hide EncEntry, GoodEntry, EntryName, EntryValue, Restore, SetAttr, RestoreAll;
    var c := p + EncTable(Host, es[i..]) + q;
    if i == |es| {
      assert ns[..i] == ns;
    } else {
      var e, rest := EncEntry(Host, es[i]), EncTable(Host, es[i + 1..]);
      assert es[i..][0] == es[i] && es[i..][1..] == es[i + 1..];
      Regrouped(p, e, rest, q);
      EntryReads(p, es[i], rest + q);
      RestoreStep(ns, i, attrs);
      ParseRestores(p + e, es, q, ns, i + 1, attrs);
    }
  }

  // ---- The values are where the layout puts them ----

  lemma LayoutAt(ns: seq<Name>, attrs: Attrs, start: nat, i: nat)
    requires i < |ns| && start + |Values(ns, attrs)| <= ATTR_MAX_SIZE
    ensures |Values(ns[..i], attrs)| <= |Values(ns, attrs)|
    ensures Layout(ns, attrs, start)[i] == Place(ns[i], attrs, start + |Values(ns[..i], attrs)|)
    decreases |ns|
  {
    var init := ns[..|ns| - 1];
    ValuesPrefix(ns, attrs, i);
    if i < |init| {
      assert init[..i] == ns[..i];
      LayoutAt(init, attrs, start, i);
    }
  }

  lemma ValueInside(ns: seq<Name>, attrs: Attrs, i: nat)
    requires i < |ns|
    ensures var at, v := |Values(ns[..i], attrs)|, Restore(attrs, ns[i]);
            at + |v| <= |Values(ns, attrs)| && Values(ns, attrs)[at..at + |v|] == v
  {
    hide Values, Kept;
    var v, before := Restore(attrs, ns[i]), Values(ns[..i], attrs);
    assert ns[..i + 1] == ns[..i] + [ns[i]];
    ValuesStep(ns[..i], ns[i], attrs);
    ValuesPrefix(ns, attrs, i + 1);
    assert before + [] == before;
    assert Values(ns[..i + 1], attrs) == before + v;
    assert Values(ns, attrs)[..|before + v|] == before + v;
  }

  lemma InPlaceAt(p: seq<byte>, ns: seq<Name>, attrs: Attrs, q: seq<byte>, i: nat)
    requires |p| + |Values(ns, attrs)| <= ATTR_MAX_SIZE && i < |ns|
    ensures var c, e := p + Values(ns, attrs) + q, Layout(ns, attrs, |p|)[i];
            && e.offset as int + e.length as int <= |c|
            && c[e.offset..e.offset as int + e.length as int] == Restore(attrs, ns[i])
  {
    hide Values, Layout;
    LayoutAt(ns, attrs, |p|, i);
    ValueInside(ns, attrs, i);
    var at, v := |Values(ns[..i], attrs)|, Restore(attrs, ns[i]);
    SliceInside(p, Values(ns, attrs), q, at, |v|);
  }

  lemma SliceInside(p: seq<byte>, v: seq<byte>, q: seq<byte>, at: nat, n: nat)
    requires at + n <= |v|
    ensures (p + v + q)[|p| + at..|p| + at + n] == v[at..at + n]
  {}

  lemma LayoutInPlace(p: seq<byte>, ns: seq<Name>, attrs: Attrs, q: seq<byte>)
    requires |p| + |Values(ns, attrs)| <= ATTR_MAX_SIZE
    ensures ValuesInPlace(p + Values(ns, attrs) + q, Layout(ns, attrs, |p|), attrs)
  {
    hide Values, Layout, Restore;
    forall i | 0 <= i < |ns| {
      InPlaceAt(p, ns, attrs, q, i);
    }
  }

  // ---- The whole file ----

  lemma SliceMiddle(p: seq<byte>, e: seq<byte>, q: seq<byte>)
    ensures (p + (e + q))[|p|..|p| + |e|] == e
  {}

  lemma ForksBack(h: Header, finfo: seq<byte>, y: seq<byte>, pre: seq<byte>, rsrc: seq<byte>, m: Attrs,
      stat: bool)
    requires |finfo| == FINFO_SIZE && |pre| == h.rsrcOffset && |rsrc| == h.rsrcLength
    ensures UnpackForks(pre + rsrc, EncAd(Host, h) + (finfo + y), m, stat) == Outcome(true, AddForks(m, finfo, rsrc))
  {
    ReadAd(h, finfo + y);
    hide EncAd, Read4;
    SliceMiddle(EncAd(Host, h), finfo, y);
    assert (pre + rsrc)[|pre|..|pre| + |rsrc|] == rsrc;
  }

  lemma ReadAt(a: seq<byte>, h: Header, x: seq<byte>)
    requires |a| == AT_MAGIC
    ensures var c := a + EncAt(Host, h) + x;
            Read4(c, AT_MAGIC) == ATTR_HDR_MAGIC && Read2(c, AT_NUM_ATTRS) == h.numAttrs
  {
    AttrCountIs(Host, h, a, x);
    var c := a + EncAt(Host, h) + x;
    assert c[84..88] == Enc4(Host, ATTR_HDR_MAGIC);
    ReadEnc(c, AT_MAGIC, ATTR_HDR_MAGIC);
  }

  lemma Resplit(ad: seq<byte>, finfo: seq<byte>, at: seq<byte>, t: seq<byte>)
    ensures ad + (finfo + ([0, 0] + at + t)) == ad + finfo + [0, 0] + at + t
  {}

  /** The header buffer of a packed file with a table: what the two swaps make of it. */
  lemma SwapPacked(h: Header, finfo: seq<byte>, es: seq<Entry>, x: seq<byte>)
    requires |finfo| == FINFO_SIZE && h.numAttrs == |es|
    ensures var buf := EncAd(Big, h) + (finfo + ([0, 0] + EncAt(Big, h) + (EncTable(Big, es) + x)));
            var c := EncAd(Host, h) + (finfo + ([0, 0] + EncAt(Host, h) + (EncTable(Host, es) + x)));
            && HeaderOk(buf) && AdFits(buf) && |SwapAd(buf)| >= AT_TABLE && Read4(SwapAd(buf), 34) == h.finfoLength
            && AttrFits(SwapAd(buf)) && SwapAttr(SwapAd(buf)) == c
            && Read4(c, AT_MAGIC) == ATTR_HDR_MAGIC && Read2(c, AT_NUM_ATTRS) == h.numAttrs
  {
    hide HeaderOk, AdFits, AttrFits, SwapAd, SwapAttr, EncAd, EncAt, EncTable, Read4, Read2;
    var rest := finfo + ([0, 0] + EncAt(Big, h) + (EncTable(Big, es) + x));
    PackedHeaderOk(h, rest);
    SwapAdImage(Big, h, rest);
    ReadAd(h, rest);
    var a := EncAd(Host, h) + finfo + [0, 0];
    Resplit(EncAd(Host, h), finfo, EncAt(Big, h), EncTable(Big, es) + x);
    SwapAttrImage(Big, a, h, es, x);
    Resplit(EncAd(Host, h), finfo, EncAt(Host, h), EncTable(Host, es) + x);
    ReadAt(a, h, EncTable(Host, es) + x);
  }

  lemma PrefixOf(ad: seq<byte>, finfo: seq<byte>, at: seq<byte>, t: seq<byte>, v: seq<byte>, r: seq<byte>, k: nat)
    requires |ad + finfo + [0, 0] + at + t + v| <= k <= |ad + finfo + [0, 0] + at + t + v + r|
    ensures (ad + finfo + [0, 0] + at + t + v + r)[..k] ==
            ad + (finfo + ([0, 0] + at + (t + (v + r[..k - |ad + finfo + [0, 0] + at + t + v|]))))
  {}

  lemma Regroup3(a: seq<byte>, t: seq<byte>, v: seq<byte>, r: seq<byte>)
    ensures a + t + (v + r) == a + (t + (v + r)) == a + t + v + r
  {}

  lemma {:induction false} OrdinaryNames(l: seq<Name>)
    ensures forall n | n in Ordinary(l) :: n in l && !IsFork(n)
    ensures forall n | n in l && !IsFork(n) :: n in Ordinary(l)
  {
    if l != [] {
      OrdinaryNames(l[..|l| - 1]);
      assert l == l[..|l| - 1] + [l[|l| - 1]];
    }
  }

  /** A packed file that has a table, taken apart again. */
  lemma UnpackTable(h: Header, finfo: seq<byte>, ns: seq<Name>, attrs: Attrs, rsrc: seq<byte>, dst: Attrs, stat: bool)
    requires |finfo| == FINFO_SIZE && |rsrc| == h.rsrcLength && h.numAttrs == |ns|
    requires DataInBuffer(ns, attrs)
    requires h.rsrcOffset == DataStart(ns) + |Values(ns, attrs)| <= ATTR_MAX_HDR_SIZE
    requires h.finfoLength == h.rsrcOffset - FINFO_OFFSET
    ensures var f := EncAd(Big, h) + finfo + [0, 0] + EncAt(Big, h) + EncTable(Big, Layout(ns, attrs, DataStart(ns))) +
            Values(ns, attrs) + rsrc;
            Walkable(f) && UnpackFile(f, dst, stat) == Outcome(true, AddForks(RestoreAll(ns, attrs), finfo, rsrc))
  {
    hide HeaderOk, AdFits, AttrFits, SwapAd, SwapAttr, EncAd, EncAt, EncTable, Read4, Read2, Values, Layout, ParseTable,
         UnpackForks, AddForks, RestoreAll, ValuesInPlace, TableSize;
    var es, vals := Layout(ns, attrs, DataStart(ns)), Values(ns, attrs);
    EncTableLength(Big, es, ns);
    EncTableLength(Host, es, ns);
    var pre := EncAd(Big, h) + finfo + [0, 0] + EncAt(Big, h) + EncTable(Big, es) + vals;
    var f := pre + rsrc;
    var k := HeaderSize(f);
    var x := vals + rsrc[..k - |pre|];
    PrefixOf(EncAd(Big, h), finfo, EncAt(Big, h), EncTable(Big, es), vals, rsrc, k);
    SwapPacked(h, finfo, es, x);
    var a := EncAd(Host, h) + finfo + [0, 0] + EncAt(Host, h);
    var y := [0, 0] + EncAt(Host, h) + (EncTable(Host, es) + x);
    var c := EncAd(Host, h) + (finfo + y);
    Resplit(EncAd(Host, h), finfo, EncAt(Host, h), EncTable(Host, es) + x);
    Regroup3(a, EncTable(Host, es), vals, rsrc[..k - |pre|]);
    LayoutInPlace(a + EncTable(Host, es), ns, attrs, rsrc[..k - |pre|]);
    assert es[0..] == es && ns[..0] == [];
    RestoreNone(attrs);
    ParseRestores(a, es, x, ns, 0, attrs);
    ForksBack(h, finfo, y, pre, rsrc, RestoreAll(ns, attrs), stat);
  }

  /** A packed file without a table. */
  lemma UnpackForksOnly(h: Header, finfo: seq<byte>, rsrc: seq<byte>, dst: Attrs, stat: bool)
    requires |finfo| == FINFO_SIZE == h.finfoLength && |rsrc| == h.rsrcLength && h.rsrcOffset == PAD_OFFSET
    ensures var f := EncAd(Big, h) + finfo + rsrc;
            Walkable(f) && UnpackFile(f, dst, stat) == Outcome(true, AddForks(map[], finfo, rsrc))
  {
    hide HeaderOk, AdFits, AttrFits, SwapAd, SwapAttr, EncAd, Read4, UnpackForks, AddForks;
    var f := EncAd(Big, h) + finfo + rsrc;
    var x := rsrc[..HeaderSize(f) - PAD_OFFSET];
    assert f[..HeaderSize(f)] == EncAd(Big, h) + (finfo + x);
    PackedHeaderOk(h, finfo + x);
    SwapAdImage(Big, h, finfo + x);
    ReadAd(h, finfo + x);
    ForksBack(h, finfo, x, EncAd(Big, h) + finfo, rsrc, map[], stat);
  }

  /**
   Unpacking a packed file succeeds and restores everything but oversized values, valueless tables and an attribute with
   the name of the quarantine one.
   */
  lemma RoundTrip(src: Source, dst: Attrs, stat: bool)
    requires Packable(src)
    requires HeaderEnd(src) <= ATTR_MAX_HDR_SIZE
    ensures Walkable(PackFile(src)) && UnpackFile(PackFile(src), dst, stat) == Outcome(true, Restored(src))
  {
    hide EncAd, EncAt, EncTable, Values, Layout, Walkable, UnpackFile, FinderInfo, AddForks, RestoreAll, Ordinary,
        TableSize;
    var listed := Listed(src);
    var ns, h := Ordinary(listed), PackHeader(src);
    OrdinaryNames(listed);
    if |Values(ns, src.attrs)| > 0 {
      UnpackTable(h, FinderInfo(src, listed), ns, src.attrs, Rsrc(src, listed), dst, stat);
    } else {
      UnpackForksOnly(h, FinderInfo(src, listed), Rsrc(src, listed), dst, stat);
    }
  }

  // ---- Exactly when nothing is lost ----

  /** An entry whose value lies beyond the buffer makes the walk fail, if it gets there. */
  lemma {:induction false} ParseFails(p: seq<byte>, es: seq<Entry>, q: seq<byte>, i: nat, bad: nat, count: nat,
      m: Attrs)
    requires i <= bad < |es| && count > bad - i
    requires es[bad].offset as int + es[bad].length as int > |p + EncTable(Host, es[i..]) + q|
    ensures !ParseTable(p + EncTable(Host, es[i..]) + q, |p|, count, m).ok
    decreases bad - i
  {
    hide EncEntry, GoodEntry, EntryName, EntryValue, SetAttr;
    var c := p + EncTable(Host, es[i..]) + q;
    var e, rest := EncEntry(Host, es[i]), EncTable(Host, es[i + 1..]);
    assert es[i..][0] == es[i] && es[i..][1..] == es[i + 1..];
    Regrouped(p, e, rest, q);
    EntryReads(p, es[i], rest + q);
    if GoodEntry(c, |p|) {
      ParseFails(p + e, es, q, i + 1, bad, count - 1, SetAttr(m, EntryName(c, |p|), EntryValue(c, |p|)));
    }
  }

  /** A bad entry behind the table makes it fail, too. */
  lemma {:induction false} ParseFailsBehind(p: seq<byte>, es: seq<Entry>, q: seq<byte>, m: Attrs)
    requires var c := p + EncTable(Host, es) + q; !GoodEntry(c, |c| - |q|)
    ensures !ParseTable(p + EncTable(Host, es) + q, |p|, |es| + 1, m).ok
    decreases |es|
  {
    hide EncEntry, GoodEntry, EntryName, EntryValue, SetAttr;
    var c := p + EncTable(Host, es) + q;
    if es == [] {
      assert c == p + q;
    } else {
      var e, rest := EncEntry(Host, es[0]), EncTable(Host, es[1..]);
      Regrouped(p, e, rest, q);
      EntryReads(p, es[0], rest + q);
      if GoodEntry(c, |p|) {
        ParseFailsBehind(p + e, es[1..], q, SetAttr(m, EntryName(c, |p|), EntryValue(c, |p|)));
      }
    }
  }

  lemma {:induction false} LastKept(ns: seq<Name>, attrs: Attrs) returns (i: nat)
    requires |Values(ns, attrs)| > 0
    ensures i < |ns| && Kept(Value(attrs, ns[i]))
    ensures |Values(ns[..i], attrs)| + |Value(attrs, ns[i])| == |Values(ns, attrs)|
  {
    i := |ns| - 1;
    if !Kept(Value(attrs, ns[i])) {
      var init := ns[..i];
      assert Values(init, attrs) + [] == Values(init, attrs);
      var j := LastKept(init, attrs);
      assert init[..j] == ns[..j];
      i := j;
    }
  }

  lemma PrefixOfTable(ad: seq<byte>, finfo: seq<byte>, at: seq<byte>, t: seq<byte>, v: seq<byte>, r: seq<byte>, k: nat)
    requires |ad + finfo + [0, 0] + at + t| <= k <= |ad + finfo + [0, 0] + at + t + v|
    ensures (ad + finfo + [0, 0] + at + t + v + r)[..k] ==
            ad + (finfo + ([0, 0] + at + (t + v[..k - |ad + finfo + [0, 0] + at + t|])))
  {}

  /** Values that end beyond the bytes that unpacking looks at make it fail. */
  lemma UnpackTooLong(h: Header, finfo: seq<byte>, ns: seq<Name>, attrs: Attrs, rsrc: seq<byte>, dst: Attrs, stat: bool)
    requires |finfo| == FINFO_SIZE && h.numAttrs == |ns|
    requires DataInBuffer(ns, attrs)
    requires DataStart(ns) <= ATTR_MAX_HDR_SIZE < h.rsrcOffset == DataStart(ns) + |Values(ns, attrs)|
    requires h.finfoLength == h.rsrcOffset - FINFO_OFFSET
    ensures var f := EncAd(Big, h) + finfo + [0, 0] + EncAt(Big, h) + EncTable(Big, Layout(ns, attrs, DataStart(ns))) +
            Values(ns, attrs) + rsrc;
            Walkable(f) && !UnpackFile(f, dst, stat).ok
  {
    hide HeaderOk, AdFits, AttrFits, SwapAd, SwapAttr, EncAd, EncAt, EncTable, Read4, Read2, Values, Layout, ParseTable,
         UnpackForks, TableSize;
    var es, vals := Layout(ns, attrs, DataStart(ns)), Values(ns, attrs);
    EncTableLength(Big, es, ns);
    EncTableLength(Host, es, ns);
    var front := EncAd(Big, h) + finfo + [0, 0] + EncAt(Big, h) + EncTable(Big, es);
    var f := front + vals + rsrc;
    var x := vals[..ATTR_MAX_HDR_SIZE - |front|];
    PrefixOfTable(EncAd(Big, h), finfo, EncAt(Big, h), EncTable(Big, es), vals, rsrc, ATTR_MAX_HDR_SIZE);
    SwapPacked(h, finfo, es, x);
    var a := EncAd(Host, h) + finfo + [0, 0] + EncAt(Host, h);
    Resplit(EncAd(Host, h), finfo, EncAt(Host, h), EncTable(Host, es) + x);
    Regroup3(a, EncTable(Host, es), x, []);
    assert x + [] == x;
    assert es[0..] == es;
    var last := LastKept(ns, attrs);
    LayoutAt(ns, attrs, DataStart(ns), last);
    ParseFails(a, es, x, 0, last, |es|, map[]);
  }

  // ---- A table that is cut off ----

  lemma NameLengthOf(o: Order, e: Entry, q: seq<byte>, m: nat)
    requires AE_NAME <= m <= |EncEntry(o, e) + q|
    ensures EntrySpan((EncEntry(o, e) + q)[..m]) == if |EncEntry(o, e)| <= m then |EncEntry(o, e)| else m
  {}

  lemma CutBehind(e: seq<byte>, q: seq<byte>, m: nat)
    requires |e| <= m <= |e + q|
    ensures (e + q)[..m] == e + q[..m - |e|] && (e + q)[..m][..|e|] == e && (e + q)[..m][|e|..] == q[..m - |e|]
  {}

  /** A walk over two entries or more does not end with the first. */
  lemma FirstWhole(t: seq<byte>, n: nat)
    requires n >= 2 && TableFits(t, n)
    ensures |t| >= AE_NAME && EntrySpan(t) < |t|
  {
    hide EntrySpan;
    assert t[|t|..] == [];
  }

  lemma FirstSwapped(e: Entry, q: seq<byte>, n: nat)
    requires n > 0
    ensures var t := EncEntry(Big, e) + q;
            && (TableFits(t, n) <==> TableFits(q, n - 1))
            && (TableFits(t, n) ==> FlipTable(t, n) == EncEntry(Host, e) + FlipTable(q, n - 1))
  {
    hide EncEntry, FlipEntry, EntrySpan;
    FirstEntry(Big, e, q);
    EntrySwapped(Big, e);
  }

  lemma LastSwapped(e: Entry, part: seq<byte>)
    requires AE_NAME <= |part| < |EncEntry(Big, e)| && part == EncEntry(Big, e)[..|part|]
    ensures TableFits(part, 1) && FlipTable(part, 1) == FlipEntry(part)
  {
    hide FlipEntry, EncEntry;
    assert EncEntry(Big, e) + [] == EncEntry(Big, e);
    NameLengthOf(Big, e, [], |part|);
    assert part[|part|..] == [] && part[..|part|] == part;
    assert TableFits([], 0) && FlipTable([], 0) == [];
    assert FlipEntry(part) + [] == FlipEntry(part);
  }

  /** A table that is cut off, but not before its last entry: what the swap makes of it. */
  lemma {:induction false} CutTable(es: seq<Entry>, m: nat) returns (init: seq<Entry>, part: seq<byte>)
    requires es != [] && m < |EncTable(Big, es)| && TableFits(EncTable(Big, es)[..m], |es|)
    ensures init == es[..|es| - 1] && AE_NAME <= |part| < |EncEntry(Big, es[|es| - 1])|
    ensures part == EncEntry(Big, es[|es| - 1])[..|part|]
    ensures FlipTable(EncTable(Big, es)[..m], |es|) == EncTable(Host, init) + FlipEntry(part)
    decreases |es|
  {
    hide EncEntry, FlipEntry, EntrySpan, FlipTable;
    var e, rest := EncEntry(Big, es[0]), EncTable(Big, es[1..]);
    init := es[..|es| - 1];
    if |es| == 1 {
      assert rest == [] && e + rest == e && init == [];
      part := e[..m];
      LastSwapped(es[0], part);
      assert [] + FlipEntry(part) == FlipEntry(part);
    } else {
      FirstWhole((e + rest)[..m], |es|);
      NameLengthOf(Big, es[0], rest, m);
      CutBehind(e, rest, m);
      FirstSwapped(es[0], rest[..m - |e|], |es|);
      var init': seq<Entry>;
      init', part := CutTable(es[1..], m - |e|);
      assert init[0] == es[0] && init[1..] == init';
      AppendAssoc(EncEntry(Host, es[0]), EncTable(Host, init'), FlipEntry(part));
    }
  }

  lemma PartReads(o: u32, l: u32, x: seq<byte>, k: nat, q: seq<byte>)
    requires AE_NAME <= k <= 8 + |x|
    ensures Read4(q + FlipEntry((Enc4(Big, o) + Enc4(Big, l) + x)[..k]), |q|) == o
  {
    var e := (Enc4(Big, o) + Enc4(Big, l) + x)[..k];
    EncSwapped(Big, o);
    var c := q + FlipEntry(e);
    assert c[|q|] == e[3] && c[|q| + 1] == e[2] && c[|q| + 2] == e[1] && c[|q| + 3] == e[0];
    assert c[|q|..|q| + 4] == Enc4(Host, o);
    ReadEnc(c, |q|, o);
  }

  lemma LastPartReads(e: Entry, part: seq<byte>, q: seq<byte>)
    requires AE_NAME <= |part| < |EncEntry(Big, e)| && part == EncEntry(Big, e)[..|part|]
    ensures Read4(q + FlipEntry(part), |q|) == e.offset
  {
    var x: seq<byte> := [0, 0, |e.name| + 1] + e.name + Zeros(SizeOf(e.name) - AE_NAME - |e.name|);
    AppleDouble.EntryParts(Big, e, x);
    PartReads(e.offset, e.length, x, |part|, q);
  }

  lemma PrefixInTable(ad: seq<byte>, finfo: seq<byte>, at: seq<byte>, t: seq<byte>, v: seq<byte>, r: seq<byte>, k: nat)
    requires |ad + finfo + [0, 0] + at| <= k <= |ad + finfo + [0, 0] + at + t|
    ensures (ad + finfo + [0, 0] + at + t + v + r)[..k] ==
            ad + (finfo + ([0, 0] + at + t[..k - |ad + finfo + [0, 0] + at|]))
  {}

  /** What the swaps make of a header buffer whose table is cut off, if they stay inside. */
  lemma SwapCut(h: Header, finfo: seq<byte>, es: seq<Entry>, m: nat) returns (init: seq<Entry>, part: seq<byte>)
    requires |finfo| == FINFO_SIZE && h.numAttrs == |es| > 0 && m < |EncTable(Big, es)|
    requires var buf := EncAd(Big, h) + (finfo + ([0, 0] + EncAt(Big, h) + EncTable(Big, es)[..m]));
             AdFits(buf) && AttrFits(SwapAd(buf))
    ensures init == es[..|es| - 1] && AE_NAME <= |part| < |EncEntry(Big, es[|es| - 1])|
    ensures part == EncEntry(Big, es[|es| - 1])[..|part|]
    ensures var buf := EncAd(Big, h) + (finfo + ([0, 0] + EncAt(Big, h) + EncTable(Big, es)[..m]));
            var a := EncAd(Host, h) + finfo + [0, 0] + EncAt(Host, h);
            SwapAttr(SwapAd(buf)) == a + EncTable(Host, init) + FlipEntry(part)
  {
    hide AdFits, SwapAd, EncAd, EncAt, EncTable, EncEntry, FlipEntry, FlipTable, TableFits, AttrCount, FlipAttrFixed;
    var t := EncTable(Big, es)[..m];
    var rest := finfo + ([0, 0] + EncAt(Big, h) + t);
    SwapAdImage(Big, h, rest);
    var a := EncAd(Host, h) + finfo + [0, 0];
    Resplit(EncAd(Host, h), finfo, EncAt(Big, h), t);
    AttrCountIs(Big, h, a, t);
    var f := a + EncAt(Big, h);
    assert (f + t)[..AT_TABLE] == f && (f + t)[AT_TABLE..] == t;
    AtSwapped(Big, h, a);
    init, part := CutTable(es, m);
    AppendAssoc(a + EncAt(Host, h), EncTable(Host, init), FlipEntry(part));
  }

  /** A table that ends beyond the bytes that unpacking looks at: if the swap stays inside, an entry is bad. */
  lemma TableTooLong(h: Header, finfo: seq<byte>, ns: seq<Name>, attrs: Attrs, rsrc: seq<byte>, dst: Attrs, stat: bool)
    requires |finfo| == FINFO_SIZE && h.numAttrs == |ns|
    requires DataInBuffer(ns, attrs) && |Values(ns, attrs)| > 0
    requires ATTR_MAX_HDR_SIZE < DataStart(ns) && h.finfoLength == DataStart(ns) + |Values(ns, attrs)| - FINFO_OFFSET
    ensures var f := EncAd(Big, h) + finfo + [0, 0] + EncAt(Big, h) + EncTable(Big, Layout(ns, attrs, DataStart(ns))) +
                     Values(ns, attrs) + rsrc;
            Walkable(f) ==> !UnpackFile(f, dst, stat).ok
  {
    hide AdFits, AttrFits, SwapAd, SwapAttr, EncAd, EncAt, EncTable, Read4, Read2, Values, Layout, ParseTable,
         UnpackForks, TableSize, EncEntry, FlipEntry, GoodEntry, HeaderOk;
    var es, vals := Layout(ns, attrs, DataStart(ns)), Values(ns, attrs);
    EncTableLength(Big, es, ns);
    var f := EncAd(Big, h) + finfo + [0, 0] + EncAt(Big, h) + EncTable(Big, es) + vals + rsrc;
    var m := ATTR_MAX_HDR_SIZE - AT_TABLE;
    PrefixInTable(EncAd(Big, h), finfo, EncAt(Big, h), EncTable(Big, es), vals, rsrc, ATTR_MAX_HDR_SIZE);
    var rest := finfo + ([0, 0] + EncAt(Big, h) + EncTable(Big, es)[..m]);
    PackedHeaderOk(h, rest);
    SwapAdImage(Big, h, rest);
    ReadAd(h, rest);
    if Walkable(f) {
      var last := LastKept(ns, attrs);
      LayoutAt(ns, attrs, DataStart(ns), last);
      var init, part := SwapCut(h, finfo, es, m);
      var a := EncAd(Host, h) + finfo + [0, 0] + EncAt(Host, h);
      var c := a + EncTable(Host, init) + FlipEntry(part);
      assert |c| == ATTR_MAX_HDR_SIZE;
      AppendAssoc(a, EncTable(Host, init), FlipEntry(part));
      ReadAt(EncAd(Host, h) + finfo + [0, 0], h, EncTable(Host, init) + FlipEntry(part));
      if last < |init| {
        assert init[0..] == init && init[last] == es[last];
        ParseFails(a, init, FlipEntry(part), 0, last, |es|, map[]);
      } else {
        LastPartReads(es[last], part, a + EncTable(Host, init));
        BadOffset(c, |c| - |part|);
        ParseFailsBehind(a, init, FlipEntry(part), map[]);
      }
    }
  }

  lemma BadOffset(c: seq<byte>, at: nat)
    requires at + 4 <= |c| && Read4(c, at) > |c|
    ensures !GoodEntry(c, at)
  {}

  /**
   The attributes that a packed file can carry at all: an all-zero Finder info and an empty fork are as good as none.
   */
  function Carried(attrs: Attrs): Attrs {
    map n: seq<byte> | n in attrs && !(n == FINDERINFO_NAME && attrs[n] == Zeros(FINFO_SIZE)) &&
      !(n == RESOURCEFORK_NAME && attrs[n] == []) :: attrs[n]
  }

  /**
   No value is too large, if there are ordinary attributes at all one of them has a value, none has the name that is
   dropped, and the Finder info has its 32 bytes.
   */
  ghost predicate Lossless(src: Source) {
    && NamesLength(src.names) <= ATTR_MAX_HDR_SIZE
    && QUARANTINE_NAME !in src.attrs
    && (FINDERINFO_NAME in src.attrs ==> |src.attrs[FINDERINFO_NAME]| == FINFO_SIZE)
    && (forall n | n in src.attrs && !IsFork(n) :: |src.attrs[n]| <= XATTR_MAXATTRLEN)
    && ((exists n | n in src.attrs && !IsFork(n) :: src.attrs[n] != []) || (forall n | n in src.attrs :: IsFork(n)))
  }

  lemma {:induction false} SomeValue(ns: seq<Name>, attrs: Attrs)
    ensures |Values(ns, attrs)| > 0 <==> exists n | n in ns :: Kept(Value(attrs, n))
  {
    if ns != [] {
      var init, last := ns[..|ns| - 1], ns[|ns| - 1];
      assert ns == init + [last];
      SomeValue(init, attrs);
      assert last in ns;
    }
  }

  lemma ForksDiffer()
    ensures FINDERINFO_NAME != RESOURCEFORK_NAME
  {
    assert |FINDERINFO_NAME| == 20 && |RESOURCEFORK_NAME| == 22;
  }

  lemma NamesLengthStep(ns: seq<Name>)
    requires ns != []
    ensures NamesLength(ns) == NamesLength(ns[..|ns| - 1]) + |ns[|ns| - 1]| + 1
  {}

  lemma ForkNames(ns: seq<Name>)
    requires forall n | n in ns :: IsFork(n)
    requires forall i, j | 0 <= i < j < |ns| :: ns[i] != ns[j]
    ensures NamesLength(ns) <= 46
  {
    assert NamesLength([]) == 0;
    hide NamesLength;
    ForksDiffer();
    assert forall i | 0 <= i < |ns| :: IsFork(ns[i]) && |ns[i]| <= 22;
    if ns != [] {
      NamesLengthStep(ns);
      var init := ns[..|ns| - 1];
      if init == [] {
      } else {
        NamesLengthStep(init);
        assert init[..|init| - 1] == [];
      }
    } else {
      assert ns == [];
    }
  }

  lemma OrdinaryAttrs(src: Source)
    requires ValidSource(src) && NamesLength(src.names) <= ATTR_MAX_HDR_SIZE
    ensures Listed(src) == src.names
    ensures forall n: seq<byte> :: n in Ordinary(src.names) <==> n in src.attrs && !IsFork(n)
  {
    OrdinaryNames(src.names);
    forall n: seq<byte>
      ensures n in Ordinary(src.names) <==> n in src.attrs && !IsFork(n)
    {
      if n in src.attrs && !IsFork(n) {
        var i :| 0 <= i < |src.names| && src.names[i] == n;
        assert src.names[i] in Ordinary(src.names);
      }
    }
  }

  /** An ordinary attribute comes back when there is a table and it is listed. */
  lemma RestoredAt(src: Source, n: seq<byte>)
    requires !IsFork(n)
    ensures var ns := Ordinary(Listed(src));
            && (n in Restored(src) <==> |Values(ns, src.attrs)| > 0 && n in ns && n != QUARANTINE_NAME)
            && (n in Restored(src) ==> Restored(src)[n] == Restore(src.attrs, n))
  {
    hide Values, Ordinary, Listed, FinderInfo, Rsrc;
  }

  lemma LosslessRestores(src: Source)
    requires Packable(src) && Lossless(src)
    ensures Restored(src) == Carried(src.attrs)
  {
    OrdinaryAttrs(src);
    hide Values, Ordinary, Listed, NamesLength, Packable, Restored, Carried;
    forall n: seq<byte>
      ensures n in Restored(src) <==> n in Carried(src.attrs)
      ensures n in Restored(src) ==> Restored(src)[n] == Carried(src.attrs)[n]
    {
      if IsFork(n) {
        ForkRestored(src, n);
      } else {
        OrdinaryRestored(src, n);
      }
    }
  }

  lemma HasValues(src: Source, n: seq<byte>)
    requires ValidSource(src) && Lossless(src) && n in src.attrs && !IsFork(n)
    ensures |Values(Ordinary(src.names), src.attrs)| > 0
  {
    OrdinaryAttrs(src);
    hide Values, Ordinary, Listed, NamesLength, ValidSource, IsFork;
    var ns := Ordinary(src.names);
    SomeValue(ns, src.attrs);
    var k :| k in src.attrs && !IsFork(k) && src.attrs[k] != [];
    assert k in ns && Kept(Value(src.attrs, k));
  }

  lemma OrdinaryRestored(src: Source, n: seq<byte>)
    requires ValidSource(src) && Lossless(src) && !IsFork(n)
    ensures n in Restored(src) <==> n in Carried(src.attrs)
    ensures n in Restored(src) ==> Restored(src)[n] == Carried(src.attrs)[n]
  {
    OrdinaryAttrs(src);
    hide Values, Ordinary, Listed, NamesLength, ValidSource, Restored;
    RestoredAt(src, n);
    if n in src.attrs {
      HasValues(src, n);
    }
  }

  lemma ForkRestored(src: Source, n: seq<byte>)
    requires ValidSource(src) && Listed(src) == src.names && IsFork(n)
    requires FINDERINFO_NAME in src.attrs ==> |src.attrs[FINDERINFO_NAME]| == FINFO_SIZE
    ensures n in Restored(src) <==> n in Carried(src.attrs)
    ensures n in Restored(src) ==> Restored(src)[n] == Carried(src.attrs)[n]
  {
    hide Values, NamesLength;
    ForksDiffer();
    OrdinaryNames(src.names);
    hide Ordinary;
    if n in src.attrs {
      assert n in src.names;
      assert src.attrs[n] + Zeros(0) == src.attrs[n];
    }
  }

  lemma NotAFork()
    ensures !IsFork(QUARANTINE_NAME)
  {
    assert |QUARANTINE_NAME| == 32 && |FINDERINFO_NAME| == 20 && |RESOURCEFORK_NAME| == 22;
  }

  /** What comes back as Finder info has 32 bytes. */
  lemma OtherSize(src: Source)
    requires FINDERINFO_NAME in src.attrs && |src.attrs[FINDERINFO_NAME]| != FINFO_SIZE
    ensures Restored(src) != Carried(src.attrs)
  {
    hide Values, Ordinary, Listed, Rsrc;
    ForksDiffer();
    OrdinaryNames(Listed(src));
    var n := FINDERINFO_NAME;
    assert n in Carried(src.attrs) && Carried(src.attrs)[n] == src.attrs[n];
    assert n in Restored(src) ==> |Restored(src)[n]| == FINFO_SIZE;
  }

  lemma LossyDiffers(src: Source)
    requires Packable(src) && !Lossless(src)
    ensures Restored(src) != Carried(src.attrs)
  {
    if NamesLength(src.names) > ATTR_MAX_HDR_SIZE {
      if forall n | n in src.names :: IsFork(n) {
        ForkNames(src.names);
      }
      var n :| n in src.names && !IsFork(n);
      RestoredAt(src, n);
      assert n in Carried(src.attrs);
    } else if QUARANTINE_NAME in src.attrs {
      NotAFork();
      RestoredAt(src, QUARANTINE_NAME);
      assert QUARANTINE_NAME in Carried(src.attrs);
    } else if FINDERINFO_NAME in src.attrs && |src.attrs[FINDERINFO_NAME]| != FINFO_SIZE {
      OtherSize(src);
    } else {
      OrdinaryAttrs(src);
      SomeValue(Ordinary(src.names), src.attrs);
      hide Ordinary, Values, NamesLength;
      var n: seq<byte>;
      if k: seq<byte> :| k in src.attrs && !IsFork(k) && |src.attrs[k]| > XATTR_MAXATTRLEN {
        n := k;
      } else {
        n :| n in src.attrs && !IsFork(n);
      }
      RestoredAt(src, n);
      assert n in Carried(src.attrs);
    }
  }

  lemma FirstIn(ns: seq<Name>)
    ensures ns == [] || ns[0] in ns
  {}

  /** What loses nothing, and ends inside the bytes that unpacking reads, fits the buffer. */
  lemma LosslessFits(src: Source)
    requires ValidSource(src) && Lossless(src) && HeaderEnd(src) <= ATTR_MAX_HDR_SIZE
    ensures var ns := Ordinary(Listed(src)); TableInBuffer(ns) && DataInBuffer(ns, src.attrs)
  {
    OrdinaryAttrs(src);
    hide Values, Ordinary, Listed, NamesLength;
    var ns := Ordinary(src.names);
    SomeValue(ns, src.attrs);
    FirstIn(ns);
    if |Values(ns, src.attrs)| == 0 {
      assert forall k | k in src.attrs && !IsFork(k) :: k in ns && !Kept(Value(src.attrs, k));
      assert forall k | k in src.attrs :: IsFork(k);
      assert TableSize([]) == 0;
    }
  }

  /**
   Packing and then unpacking is the identity on what a file can carry exactly when nothing is oversized, some
   ordinary attribute has a value if there are ordinary attributes, none has the name of the quarantine attribute, the
   Finder info has 32 bytes, the values end inside the 65554 bytes that unpacking reads, and the fork has a 31-bit size.
   Otherwise packing leaves its buffer or fails, or unpacking leaves its buffer, fails, or gives something else.
   */
  lemma RoundTripExact(src: Source, dst: Attrs, stat: bool)
    requires ValidSource(src) && SECURITY_NAME !in src.attrs
    ensures (Packable(src) && Walkable(PackFile(src)) &&
             UnpackFile(PackFile(src), dst, stat) == Outcome(true, Carried(src.attrs)))
            <==> Lossless(src) && HeaderEnd(src) <= ATTR_MAX_HDR_SIZE && |Rsrc(src, Listed(src))| <= 0x7fff_ffff
  {
    hide Lossless, Restored, Carried, UnpackFile, Walkable, PackFile, HeaderEnd, Rsrc, Listed, Ordinary, TableInBuffer,
         DataInBuffer, ValidSource;
    if HeaderEnd(src) <= ATTR_MAX_HDR_SIZE {
      if Lossless(src) {
        LosslessFits(src);
      }
      if Packable(src) {
        RoundTrip(src, dst, stat);
        if Lossless(src) {
          LosslessRestores(src);
        } else {
          LossyDiffers(src);
        }
      }
    } else if Packable(src) {
      PackedTooLong(src, dst, stat);
    }
  }

  /** A file that ends its values beyond the bytes that unpacking reads is not unpacked. */
  lemma PackedTooLong(src: Source, dst: Attrs, stat: bool)
    requires Packable(src) && HeaderEnd(src) > ATTR_MAX_HDR_SIZE
    ensures Walkable(PackFile(src)) ==> !UnpackFile(PackFile(src), dst, stat).ok
    ensures DataStart(Ordinary(Listed(src))) <= ATTR_MAX_HDR_SIZE ==> Walkable(PackFile(src))
  {
    hide EncAd, EncAt, EncTable, Values, Layout, Walkable, UnpackFile, FinderInfo, Ordinary, TableSize, Listed;
    var listed := Listed(src);
    var ns := Ordinary(listed);
    if DataStart(ns) <= ATTR_MAX_HDR_SIZE {
      UnpackTooLong(PackHeader(src), FinderInfo(src, listed), ns, src.attrs, Rsrc(src, listed), dst, stat);
    } else {
      TableTooLong(PackHeader(src), FinderInfo(src, listed), ns, src.attrs, Rsrc(src, listed), dst, stat);
    }
  }

  /** A file whose one attribute is empty can be packed, and does not come back. */
  lemma EmptyValueLost(dst: Attrs, stat: bool)
    ensures var src := Source([[65]], map[[65] := []], 1);
            Packable(src) && Walkable(PackFile(src)) &&
              UnpackFile(PackFile(src), dst, stat) != Outcome(true, Carried(src.attrs))
  {
    hide PackFile, UnpackFile, Walkable, Carried;
    var src := Source([[65]], map[[65] := []], 1);
    OneEmpty(src);
    RoundTrip(src, dst, stat);
    RoundTripExact(src, dst, stat);
  }

  lemma OneEmpty(src: Source)
    requires src == Source([[65]], map[[65] := []], 1)
    ensures Packable(src) && !Lossless(src) && HeaderEnd(src) == PAD_OFFSET
    ensures SECURITY_NAME !in src.attrs
  {
    hide Ordinary, TableSize, NamesLength, Values;
    assert |SECURITY_NAME| == 18 && |FINDERINFO_NAME| == 20 && |RESOURCEFORK_NAME| == 22;
    ShortNames(src.names, 1);
    SomeValue(src.names, src.attrs);
    assert [65] in src.attrs && !IsFork([65]);
  }
}
