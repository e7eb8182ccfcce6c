/**
 The in-place byte-order conversions of an AppleDouble image: swap_adhdr and swap_attrhdr.
 Both decide how many entries to walk from a header that they are about to reverse, and
 swap_attrhdr steps by a name length kept inside the entry that it is reversing.
 */
module EndianSwap {
  import opened Bytes

  const ADH_MAGIC: u32 := 0x0005_1607
  const ATTR_HDR_MAGIC: u32 := 0x4154_5452

  // Field offsets of apple_double_header and attr_header.
  const AD_NUM_ENTRIES: nat := 24
  const AD_ENTRIES: nat := 26
  const AD_ENTRY_SIZE: nat := 12
  const AT_MAGIC: nat := 84
  const AT_NUM_ATTRS: nat := 118
  const AT_TABLE: nat := 120

  // Field offsets of attr_entry.
  const AE_NAMELEN: nat := 10
  const AE_NAME: nat := 11

  /** ATTR_ENTRY_LENGTH: the entry without its one-byte name, plus the name, rounded up to four. */
  function EntryLength(namelen: byte): (n: nat)
    ensures n % 4 == 0 && AE_NAME + namelen as int <= n < AE_NAME + namelen as int + 4
  {
    (AE_NAME + namelen as int + 3) / 4 * 4
  }

  // ---- The AppleDouble header ----

  function AdCount(s: seq<byte>): nat
    requires |s| >= AD_ENTRIES
  {
    if Read4(s, 0) == ADH_MAGIC then Read2(s, AD_NUM_ENTRIES) else Swap16(Read2(s, AD_NUM_ENTRIES))
  }

  function FlipAdFixed(h: seq<byte>): (r: seq<byte>)
    requires |h| == AD_ENTRIES
    ensures |r| == |h|
  {
    Flip(Flip(Flip(h, 0, 4), 4, 4), AD_NUM_ENTRIES, 2)
  }

  function FlipAdEntry(e: seq<byte>): (r: seq<byte>)
    requires |e| == AD_ENTRY_SIZE
    ensures |r| == |e|
  {
    Flip(Flip(Flip(e, 0, 4), 4, 4), 8, 4)
  }

  function FlipAdEntries(t: seq<byte>, count: nat): (r: seq<byte>)
    requires count * AD_ENTRY_SIZE <= |t|
    ensures |r| == |t|
  {
    if count == 0 then t
    else FlipAdEntry(t[..AD_ENTRY_SIZE]) + FlipAdEntries(t[AD_ENTRY_SIZE..], count - 1)
  }

  ghost predicate AdFits(s: seq<byte>) {
    |s| >= AD_ENTRIES && AdCount(s) * AD_ENTRY_SIZE <= |s| - AD_ENTRIES
  }

  /** What swap_adhdr leaves. */
  function SwapAd(s: seq<byte>): (r: seq<byte>)
    requires AdFits(s)
    ensures |r| == |s|
  {
    FlipAdFixed(s[..AD_ENTRIES]) + FlipAdEntries(s[AD_ENTRIES..], AdCount(s))
  }

  // ---- The attribute header and its entry table ----

  function AttrCount(s: seq<byte>): nat
    requires |s| >= AT_TABLE
  {
    if Read4(s, AT_MAGIC) == ATTR_HDR_MAGIC then Read2(s, AT_NUM_ATTRS) else Swap16(Read2(s, AT_NUM_ATTRS))
  }

  function FlipAttrFixed(h: seq<byte>): (r: seq<byte>)
    requires |h| == AT_TABLE
    ensures |r| == |h|
  {
    Flip(Flip(Flip(Flip(Flip(Flip(Flip(h, 84, 4), 88, 4), 92, 4), 96, 4), 100, 4), 116, 2), 118, 2)
  }

  /** The bytes of the first entry of table `t`; the padding of a last entry may lie outside. */
  function EntrySpan(t: seq<byte>): (n: nat)
    requires |t| >= AE_NAME
    ensures AE_NAME <= n <= |t|
  {
    var n := EntryLength(t[AE_NAMELEN]);
    if n <= |t| then n else |t|
  }

  function FlipEntry(e: seq<byte>): (r: seq<byte>)
    requires |e| >= AE_NAME
    ensures |r| == |e| && r[AE_NAMELEN] == e[AE_NAMELEN]
  {
    Flip(Flip(Flip(e, 0, 4), 4, 4), 8, 2)
  }

  /** Each of `count` entries has its fixed fields inside `t`. */
  ghost predicate TableFits(t: seq<byte>, count: nat) {
    count == 0 || (|t| >= AE_NAME && TableFits(t[EntrySpan(t)..], count - 1))
  }

  function FlipTable(t: seq<byte>, count: nat): (r: seq<byte>)
    requires TableFits(t, count)
    ensures |r| == |t|
  {
    if count == 0 then t
    else FlipEntry(t[..EntrySpan(t)]) + FlipTable(t[EntrySpan(t)..], count - 1)
  }

  ghost predicate AttrFits(s: seq<byte>) {
    |s| >= AT_TABLE && TableFits(s[AT_TABLE..], AttrCount(s))
  }

  /** What swap_attrhdr leaves. */
  function SwapAttr(s: seq<byte>): (r: seq<byte>)
    requires AttrFits(s)
    ensures |r| == |s|
  {
    FlipAttrFixed(s[..AT_TABLE]) + FlipTable(s[AT_TABLE..], AttrCount(s))
  }

  // ---- The C loops, in place ----

  lemma FlipInside(p: seq<byte>, e: seq<byte>, q: seq<byte>, at: nat, w: nat)
    requires at + w <= |e|
    ensures Flip(p + e + q, |p| + at, w) == p + Flip(e, at, w) + q
  {}

  /** The walk of swap_adhdr over the whole image: entry `at` and `count` - 1 after it. */
  function WalkAd(s: seq<byte>, at: nat, count: nat): (r: seq<byte>)
    requires at + count * AD_ENTRY_SIZE <= |s|
    decreases count
  {
    if count == 0 then s
    else WalkAd(Flip(Flip(Flip(s, at, 4), at + 4, 4), at + 8, 4), at + AD_ENTRY_SIZE, count - 1)
  }

  lemma {:induction false} WalkAdIsTable(s: seq<byte>, at: nat, count: nat)
    requires at + count * AD_ENTRY_SIZE <= |s|
    ensures WalkAd(s, at, count) == s[..at] + FlipAdEntries(s[at..], count)
    decreases count
  {
    if count == 0 {
      assert s == s[..at] + s[at..];
    } else {
      var end := at + AD_ENTRY_SIZE;
      var p, e, q := s[..at], s[at..end], s[end..];
      assert s == p + e + q;
      FlipInside(p, e, q, 0, 4);
      FlipInside(p, Flip(e, 0, 4), q, 4, 4);
      FlipInside(p, Flip(Flip(e, 0, 4), 4, 4), q, 8, 4);
      var r := p + FlipAdEntry(e) + q;
      assert r[..end] == p + FlipAdEntry(e) && r[end..] == q;
      WalkAdIsTable(r, end, count - 1);
      assert s[at..][..AD_ENTRY_SIZE] == e && s[at..][AD_ENTRY_SIZE..] == q;
      assert p + FlipAdEntry(e) + FlipAdEntries(q, count - 1) == p + (FlipAdEntry(e) + FlipAdEntries(q, count - 1));
    }
  }

  method SwapAdTable(a: array<byte>, count: nat)
    requires AD_ENTRIES + count * AD_ENTRY_SIZE <= a.Length
    modifies a
    ensures a[..] == WalkAd(old(a[..]), AD_ENTRIES, count)
  {
    hide Flip;
    var at: nat := AD_ENTRIES;
    ghost var t := a[..];
    for i := 0 to count
      invariant at + (count - i) * AD_ENTRY_SIZE <= a.Length
      invariant WalkAd(t, AD_ENTRIES, count) == WalkAd(a[..], at, count - i)
    {
      SwapField32(a, at);
      SwapField32(a, at + 4);
      SwapField32(a, at + 8);
      at := at + AD_ENTRY_SIZE;
    }
  }

  lemma FlipAdFixedOf(s: seq<byte>)
    requires |s| >= AD_ENTRIES
    ensures Flip(Flip(Flip(s, 0, 4), 4, 4), AD_NUM_ENTRIES, 2) == FlipAdFixed(s[..AD_ENTRIES]) + s[AD_ENTRIES..]
  {}

  /** swap_adhdr. */
  method SwapAdhdr(a: array<byte>)
    requires AdFits(a[..])
    modifies a
    ensures a[..] == SwapAd(old(a[..]))
  {
    ghost var s := a[..];
    var magic := Get32(a, 0);
    var num := Get16(a, AD_NUM_ENTRIES);
    var count: nat := if magic == ADH_MAGIC then num else Swap16(num);
    hide Flip, FlipAdFixed, FlipAdEntries, WalkAd, Read4, Read2, Swap16;
    SwapField32(a, 0);
    SwapField32(a, 4);
    SwapField16(a, AD_NUM_ENTRIES);
    FlipAdFixedOf(s);
    ghost var t := a[..];
    SwapAdTable(a, count);
    WalkAdIsTable(t, AD_ENTRIES, count);
    assert t[..AD_ENTRIES] == FlipAdFixed(s[..AD_ENTRIES]) && t[AD_ENTRIES..] == s[AD_ENTRIES..];
  }

  function FlipEntryAt(s: seq<byte>, at: nat): (r: seq<byte>)
    requires at + AE_NAME <= |s|
    ensures |r| == |s|
  {
    Flip(Flip(Flip(s, at, 4), at + 4, 4), at + 8, 2)
  }

  lemma FlipEntryAtIs(p: seq<byte>, e: seq<byte>, q: seq<byte>)
    requires |e| >= AE_NAME
    ensures FlipEntryAt(p + e + q, |p|) == p + FlipEntry(e) + q
  {
    FlipInside(p, e, q, 0, 4);
    FlipInside(p, Flip(e, 0, 4), q, 4, 4);
    FlipInside(p, Flip(Flip(e, 0, 4), 4, 4), q, 8, 2);
  }

  lemma AppendAssoc(p: seq<byte>, e: seq<byte>, q: seq<byte>)
    ensures p + e + q == p + (e + q)
  {}

  lemma NameLengthAt(p: seq<byte>, t: seq<byte>)
    requires |t| >= AE_NAME
    ensures (p + t)[|p| + AE_NAMELEN] == t[AE_NAMELEN]
    ensures p + t == p + t[..EntrySpan(t)] + t[EntrySpan(t)..]
  {}

  /** The three fixed fields of the entry `e` that starts at `at`. */
  method SwapEntryAt(a: array<byte>, at: nat, ghost p: seq<byte>, ghost e: seq<byte>, ghost q: seq<byte>)
    requires |e| >= AE_NAME && |p| == at && a[..] == p + e + q
    modifies a
    ensures a[..] == p + FlipEntry(e) + q
  {
    SwapField32(a, at);
    SwapField32(a, at + 4);
    SwapField16(a, at + 8);
    FlipEntryAtIs(p, e, q);
  }

  /** One step of the walk: the entry at `at` is swapped and the next one located. */
  method SwapNext(a: array<byte>, at: nat, ghost p: seq<byte>, ghost t: seq<byte>) returns (next: nat)
    requires |t| >= AE_NAME && |p| == at && a[..] == p + t
    modifies a
    ensures a[..] == p + FlipEntry(t[..EntrySpan(t)]) + t[EntrySpan(t)..]
    ensures next == at + EntrySpan(t)
  {
    NameLengthAt(p, t);
    var namelen := a[at + AE_NAMELEN];
    assert namelen == a[..][at + AE_NAMELEN];
    next := at + EntryLength(namelen);
    SwapEntryAt(a, at, p, t[..EntrySpan(t)], t[EntrySpan(t)..]);
    next := if next <= a.Length then next else a.Length;
  }

  /**
   The walk over the table. The code does not look at the end of the image; `inside` tells whether all that it touches
   lies in it, and the model stops if not.
   */
  method SwapTable(a: array<byte>, count: nat, ghost h: seq<byte>, ghost t: seq<byte>) returns (inside: bool)
    requires |h| == AT_TABLE && a[..] == h + t
    modifies a
    ensures inside <==> TableFits(t, count)
    ensures inside ==> a[..] == h + FlipTable(t, count)
  {
    var at := AT_TABLE;
    ghost var p, q := h, t;
    for i := 0 to count
      invariant at == |p| && a[..] == p + q
      invariant TableFits(q, count - i) <==> TableFits(t, count)
      invariant TableFits(q, count - i) ==> h + FlipTable(t, count) == p + FlipTable(q, count - i)
    {
      if at + AE_NAME > a.Length {
        return false;
      }
      ghost var e, rest := q[..EntrySpan(q)], q[EntrySpan(q)..];
      at := SwapNext(a, at, p, q);
      if TableFits(rest, count - i - 1) {
        AppendAssoc(p, FlipEntry(e), FlipTable(rest, count - i - 1));
      }
      p, q := p + FlipEntry(e), rest;
    }
    inside := true;
  }

  /** swap_attrhdr. */
  method SwapAttrhdr(a: array<byte>) returns (inside: bool)
    requires a.Length >= AT_TABLE
    modifies a
    ensures inside <==> AttrFits(old(a[..]))
    ensures inside ==> a[..] == SwapAttr(old(a[..]))
  {
    ghost var s := a[..];
    var magic := Get32(a, AT_MAGIC);
    var num := Get16(a, AT_NUM_ATTRS);
    var count: nat := if magic == ATTR_HDR_MAGIC then num else Swap16(num);
    SwapAttrFixed(a);
    inside := SwapTable(a, count, FlipAttrFixed(s[..AT_TABLE]), s[AT_TABLE..]);
  }

  /** The seven header fields. */
  method SwapAttrFixed(a: array<byte>)
    requires a.Length >= AT_TABLE
    modifies a
    ensures a[..][..AT_TABLE] == FlipAttrFixed(old(a[..])[..AT_TABLE])
    ensures a[..][AT_TABLE..] == old(a[..])[AT_TABLE..]
  {
    SwapHeader32(a, 84);
    SwapHeader32(a, 88);
    SwapHeader32(a, 92);
    SwapHeader32(a, 96);
    SwapHeader32(a, 100);
    SwapHeader16(a, 116);
    SwapHeader16(a, 118);
  }

  method SwapHeader32(a: array<byte>, at: nat)
    requires at + 4 <= AT_TABLE <= a.Length
    modifies a
    ensures a[..][..AT_TABLE] == Flip(old(a[..])[..AT_TABLE], at, 4)
    ensures a[..][AT_TABLE..] == old(a[..])[AT_TABLE..]
  {
    SwapField32(a, at);
  }

  method SwapHeader16(a: array<byte>, at: nat)
    requires at + 2 <= AT_TABLE <= a.Length
    modifies a
    ensures a[..][..AT_TABLE] == Flip(old(a[..])[..AT_TABLE], at, 2)
    ensures a[..][AT_TABLE..] == old(a[..])[AT_TABLE..]
  {
    SwapField16(a, at);
  }

  // ---- Swapping twice ----

  lemma FlippedRead4(s: seq<byte>, r: seq<byte>, at: nat)
    requires at + 4 <= |s| == |r|
    requires r[at] == s[at + 3] && r[at + 1] == s[at + 2] && r[at + 2] == s[at + 1] && r[at + 3] == s[at]
    ensures Read4(r, at) == Swap32(Read4(s, at))
  {
    Host4Join4(s[at], s[at + 1], s[at + 2], s[at + 3]);
  }

  lemma FlippedRead2(s: seq<byte>, r: seq<byte>, at: nat)
    requires at + 2 <= |s| == |r|
    requires r[at] == s[at + 1] && r[at + 1] == s[at]
    ensures Read2(r, at) == Swap16(Read2(s, at))
    ensures Swap16(Read2(r, at)) == Read2(s, at)
  {
    Host2Join2(s[at], s[at + 1]);
    Host2Join2(s[at + 1], s[at]);
  }

  lemma Swap32Twice(v: u32)
    ensures Swap32(Swap32(v)) == v
  {
    var s := Host4(v);
    Join4Host4(v);
    Host4Join4(s[0], s[1], s[2], s[3]);
    Host4Join4(s[3], s[2], s[1], s[0]);
  }

  /** Neither magic is a palindrome, so the byte order can be told from it. */
  lemma MagicsDiffer()
    ensures Swap32(ADH_MAGIC) != ADH_MAGIC && Swap32(ATTR_HDR_MAGIC) != ATTR_HDR_MAGIC
  {}

  /** The magics in the two byte orders. */
  lemma MagicsSwapped()
    ensures ADH_MAGIC == 0x0005_1607 && Swap32(ADH_MAGIC) == 0x0716_0500
    ensures ATTR_HDR_MAGIC == 0x4154_5452 && Swap32(ATTR_HDR_MAGIC) == 0x5254_5441
  {
    hide Swap32;
    Host4Join4(0x07, 0x16, 0x05, 0x00);
    Host4Join4(0x52, 0x54, 0x54, 0x41);
    MagicsJoined();
  }

  lemma MagicsJoined()
    ensures Join4(0x07, 0x16, 0x05, 0x00) == 0x0005_1607 && Join4(0x00, 0x05, 0x16, 0x07) == 0x0716_0500
    ensures Join4(0x52, 0x54, 0x54, 0x41) == 0x4154_5452 && Join4(0x41, 0x54, 0x54, 0x52) == 0x5254_5441
  {}

  lemma FlipAdFixedTwice(h: seq<byte>)
    requires |h| == AD_ENTRIES
    ensures FlipAdFixed(FlipAdFixed(h)) == h
  {}

  lemma FlipAdEntryTwice(e: seq<byte>)
    requires |e| == AD_ENTRY_SIZE
    ensures FlipAdEntry(FlipAdEntry(e)) == e
  {}

  lemma {:induction false} FlipAdEntriesTwice(t: seq<byte>, count: nat)
    requires count * AD_ENTRY_SIZE <= |t|
    ensures FlipAdEntries(FlipAdEntries(t, count), count) == t
  {
    if count > 0 {
      var e, q := t[..AD_ENTRY_SIZE], t[AD_ENTRY_SIZE..];
      var r := FlipAdEntry(e) + FlipAdEntries(q, count - 1);
      assert r[..AD_ENTRY_SIZE] == FlipAdEntry(e) && r[AD_ENTRY_SIZE..] == FlipAdEntries(q, count - 1);
      FlipAdEntryTwice(e);
      FlipAdEntriesTwice(q, count - 1);
    }
  }

  /** The header magic is the AppleDouble one, in host or in file order. */
  ghost predicate AdMagicEitherOrder(s: seq<byte>)
    requires |s| >= AD_ENTRIES
  {
    Read4(s, 0) == ADH_MAGIC || Read4(s, 0) == Swap32(ADH_MAGIC)
  }

  ghost predicate AttrMagicEitherOrder(s: seq<byte>)
    requires |s| >= AT_TABLE
  {
    Read4(s, AT_MAGIC) == ATTR_HDR_MAGIC || Read4(s, AT_MAGIC) == Swap32(ATTR_HDR_MAGIC)
  }

  /** The second pass finds the other magic and so computes the same count. */
  lemma SwapAdKeepsCount(s: seq<byte>)
    requires AdFits(s) && AdMagicEitherOrder(s)
    ensures AdFits(SwapAd(s)) && AdMagicEitherOrder(SwapAd(s)) && AdCount(SwapAd(s)) == AdCount(s)
  {
    var r := SwapAd(s);
    assert r[..AD_ENTRIES] == FlipAdFixed(s[..AD_ENTRIES]);
    hide AdFits, SwapAd, Read4, Read2, Swap32, Swap16;
    FlippedRead4(s, r, 0);
    FlippedRead2(s, r, 24);
    Swap32Twice(ADH_MAGIC);
    MagicsDiffer();
  }

  lemma SwapAdTwice(s: seq<byte>)
    requires AdFits(s) && Read4(s, 0) in {0x0005_1607, 0x0716_0500}
    ensures AdFits(SwapAd(s)) && SwapAd(SwapAd(s)) == s
  {
    var r := SwapAd(s);
    MagicsSwapped();
    SwapAdKeepsCount(s);
    assert r[..AD_ENTRIES] == FlipAdFixed(s[..AD_ENTRIES]);
    assert r[AD_ENTRIES..] == FlipAdEntries(s[AD_ENTRIES..], AdCount(s));
    FlipAdFixedTwice(s[..AD_ENTRIES]);
    FlipAdEntriesTwice(s[AD_ENTRIES..], AdCount(s));
    assert s == s[..AD_ENTRIES] + s[AD_ENTRIES..];
  }

  /** Where the byte at `k` of the attribute header comes from. */
  function Mirror(k: nat): (j: nat)
    ensures k < AT_TABLE ==> j < AT_TABLE
  {
    if 84 <= k < 88 then 171 - k
    else if 88 <= k < 92 then 179 - k
    else if 92 <= k < 96 then 187 - k
    else if 96 <= k < 100 then 195 - k
    else if 100 <= k < 104 then 203 - k
    else if 116 <= k < 118 then 233 - k
    else if 118 <= k < 120 then 237 - k
    else k
  }

  lemma FlipAttrFixedAt(h: seq<byte>, k: nat)
    requires |h| == AT_TABLE && k < |h|
    ensures FlipAttrFixed(h)[k] == h[Mirror(k)]
  {}

  lemma FlipAttrFixedTwice(h: seq<byte>)
    requires |h| == AT_TABLE
    ensures FlipAttrFixed(FlipAttrFixed(h)) == h
  {
    forall k | 0 <= k < |h|
      ensures FlipAttrFixed(FlipAttrFixed(h))[k] == h[k]
    {
      FlipAttrFixedAt(FlipAttrFixed(h), k);
      FlipAttrFixedAt(h, Mirror(k));
    }
  }

  lemma FlipEntryTwice(e: seq<byte>)
    requires |e| >= AE_NAME
    ensures FlipEntry(FlipEntry(e)) == e
  {}

  /** The swapped first entry spans as many bytes as before, whatever is swapped behind it. */
  lemma SameSpan(t: seq<byte>, e: seq<byte>, r: seq<byte>)
    requires |t| >= AE_NAME && |e| == EntrySpan(t) && e[AE_NAMELEN] == t[AE_NAMELEN] && |r| == |t| - |e|
    ensures EntrySpan(e + r) == |e| && (e + r)[..|e|] == e && (e + r)[|e|..] == r
  {}

  lemma NoTable(t: seq<byte>)
    ensures TableFits(t, 0) && FlipTable(t, 0) == t
  {}

  lemma FlipTableStep(t: seq<byte>, e: seq<byte>, q: seq<byte>, count: nat)
    requires count > 0 && |t| >= AE_NAME && |e| == EntrySpan(t) && t == e + q && TableFits(q, count - 1)
    ensures TableFits(t, count) && FlipTable(t, count) == FlipEntry(e) + FlipTable(q, count - 1)
  {
    hide FlipEntry, EntrySpan;
    assert t[..|e|] == e && t[|e|..] == q;
  }

  /** The walk steps by name lengths that the swap does not touch, so it takes the same steps again. */
  lemma {:induction false} FlipTableTwice(t: seq<byte>, count: nat)
    requires TableFits(t, count)
    ensures TableFits(FlipTable(t, count), count)
    ensures FlipTable(FlipTable(t, count), count) == t
  {
    hide FlipEntry, EntrySpan, FlipTable;
    if count == 0 {
      NoTable(t);
    } else {
      var e, q := t[..EntrySpan(t)], t[EntrySpan(t)..];
      var r := FlipTable(q, count - 1);
      assert t == e + q;
      FlipTableTwice(q, count - 1);
      FlipTableStep(t, e, q, count);
      SameSpan(t, FlipEntry(e), r);
      FlipTableStep(FlipEntry(e) + r, FlipEntry(e), r, count);
      FlipEntryTwice(e);
    }
  }

  lemma SwapAttrAt(s: seq<byte>, k: nat)
    requires AttrFits(s) && k < AT_TABLE
    ensures SwapAttr(s)[k] == s[Mirror(k)]
  {
    hide FlipTable, FlipAttrFixed;
    FlipAttrFixedAt(s[..AT_TABLE], k);
  }

  lemma SwapAttrKeepsCount(s: seq<byte>)
    requires AttrFits(s) && AttrMagicEitherOrder(s)
    ensures AttrMagicEitherOrder(SwapAttr(s)) && AttrCount(SwapAttr(s)) == AttrCount(s)
  {
    hide SwapAttr, Read4, Read2, Swap32, Swap16, TableFits;
    var r := SwapAttr(s);
    SwapAttrAt(s, 84);
    SwapAttrAt(s, 85);
    SwapAttrAt(s, 86);
    SwapAttrAt(s, 87);
    SwapAttrAt(s, 118);
    SwapAttrAt(s, 119);
    FlippedRead4(s, r, 84);
    FlippedRead2(s, r, 118);
    Swap32Twice(ATTR_HDR_MAGIC);
    MagicsDiffer();
  }

  lemma SwapAttrTwice(s: seq<byte>)
    requires AttrFits(s) && Read4(s, AT_MAGIC) in {0x4154_5452, 0x5254_5441}
    ensures AttrFits(SwapAttr(s)) && SwapAttr(SwapAttr(s)) == s
  {
    var r := SwapAttr(s);
    MagicsSwapped();
    SwapAttrKeepsCount(s);
    assert r[..AT_TABLE] == FlipAttrFixed(s[..AT_TABLE]);
    assert r[AT_TABLE..] == FlipTable(s[AT_TABLE..], AttrCount(s));
    FlipAttrFixedTwice(s[..AT_TABLE]);
    FlipTableTwice(s[AT_TABLE..], AttrCount(s));
    assert s == s[..AT_TABLE] + s[AT_TABLE..];
  }

  // ---- When the walk stays inside ----

  /** The lengths of entries with these name lengths, one behind the other. */
  function Steps(names: seq<byte>): nat {
    if names == [] then 0 else EntryLength(names[0]) + Steps(names[1..])
  }

  /** `names` are the name lengths that the walk reads on its way, as far as they lie in the table. */
  predicate Reads(t: seq<byte>, names: seq<byte>) {
    names == [] ||
    (|t| >= AE_NAME ==>
       t[AE_NAMELEN] == names[0] && (EntryLength(names[0]) <= |t| ==> Reads(t[EntryLength(names[0])..], names[1..])))
  }

  /** The walk stays inside exactly if the entries before the last one, and eleven bytes of that, do. */
  lemma {:induction false} FitsExactly(t: seq<byte>, names: seq<byte>)
    requires Reads(t, names)
    ensures TableFits(t, |names| + 1) <==> Steps(names) + AE_NAME <= |t|
    decreases |names|
  {
    if names == [] {
      OneFits(t);
    } else if |t| >= AE_NAME {
      var n := EntryLength(names[0]);
      if n <= |t| {
        assert EntrySpan(t) == n;
        FitsExactly(t[n..], names[1..]);
      } else {
        assert EntrySpan(t) == |t| && t[|t|..] == [];
        assert !TableFits([], |names|);
      }
    }
  }

  lemma OneFits(t: seq<byte>)
    ensures TableFits(t, 1) <==> AE_NAME <= |t|
  {
    if |t| >= AE_NAME {
      assert TableFits(t[EntrySpan(t)..], 0);
    }
  }
}
