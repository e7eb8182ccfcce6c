/** copyfile_unpack: the attributes that an AppleDouble file gives its destination. */
module AppleDoubleUnpack {
  import opened Bytes
  import opened EndianSwap
  import opened AppleDouble

  /** What is left in the destination, and whether unpacking succeeded. */
  datatype Outcome = Outcome(ok: bool, attrs: Attrs)

  /** The name as a C string: up to its first NUL. */
  function CString(s: seq<byte>): (r: seq<byte>)
    ensures r <= s && 0 !in r
  {
    if s == [] || s[0] == 0 then [] else [s[0]] + CString(s[1..])
  }

  const AE_SIZE: nat := 12

  /** The sanity checks on the entry at `at` of the swapped header buffer. */
  predicate GoodEntry(b: seq<byte>, at: nat) {
    && at + AE_SIZE <= |b|
    && 2 <= b[at + AE_NAMELEN] <= XATTR_MAXNAMELEN + 1
    && at + AE_NAME + b[at + AE_NAMELEN] <= |b|
    && b[at + AE_NAME + b[at + AE_NAMELEN] - 1] == 0
    && Read4(b, at) <= |b|
    && Read4(b, at) + Read4(b, at + 4) <= |b|
  }

  function EntryName(b: seq<byte>, at: nat): seq<byte>
    requires GoodEntry(b, at)
  {
    CString(b[at + AE_NAME..at + AE_NAME + b[at + AE_NAMELEN]])
  }

  function EntryValue(b: seq<byte>, at: nat): seq<byte>
    requires GoodEntry(b, at)
  {
    b[Read4(b, at)..Read4(b, at) + Read4(b, at + 4)]
  }

  /** fsetxattr, except for the quarantine attribute, which a system without quarantine drops. */
  function SetAttr(m: Attrs, name: seq<byte>, v: seq<byte>): Attrs {
    if name == QUARANTINE_NAME then m else m[name := v]
  }

  /** `count` entries from `at` on, set one after the other until one is bad. */
  function ParseTable(b: seq<byte>, at: nat, count: nat, m: Attrs): (r: Outcome)
    decreases count
  {
    if count == 0 then Outcome(true, m)
    else if !GoodEntry(b, at) then Outcome(false, m)
    else ParseTable(b, at + EntryLength(b[at + AE_NAMELEN]), count - 1, SetAttr(m, EntryName(b, at), EntryValue(b, at)))
  }

  function HeaderSize(file: seq<byte>): (n: nat)
    ensures n <= |file|
  {
    if |file| < ATTR_MAX_HDR_SIZE then |file| else ATTR_MAX_HDR_SIZE
  }

  /** An AppleDouble file, before anything is swapped. */
  predicate HeaderOk(buf: seq<byte>) {
    && |buf| >= PAD_OFFSET
    && Swap32(Read4(buf, 0)) == ADH_MAGIC
    && Swap32(Read4(buf, 4)) == ADH_VERSION
    && Swap16(Read2(buf, AD_NUM_ENTRIES)) == 2
    && Swap32(Read4(buf, AD_ENTRIES)) == AD_FINDERINFO
  }

  lemma HeaderOkFits(buf: seq<byte>)
    requires HeaderOk(buf)
    ensures AdFits(buf)
  {
    MagicsDiffer();
    Swap32Twice(Read4(buf, 0));
  }

  /**
   A header with attributes is walked by swap_attrhdr before any entry is checked: whether the walk stays in the
   buffer.
   */
  ghost predicate Walkable(file: seq<byte>) {
    var buf := file[..HeaderSize(file)];
    HeaderOk(buf) ==>
      (HeaderOkFits(buf);
       var b := SwapAd(buf);
       |b| >= AT_TABLE && Read4(b, 34) > FINFO_SIZE ==> AttrFits(b))
  }

  /** The whole fork can be read. */
  predicate ForkReadable(file: seq<byte>, b: seq<byte>)
    requires |b| >= PAD_OFFSET
  {
    Read4(b, 38) == AD_RESOURCE && Read4(b, 46) > 0 ==> Read4(b, 42) as int + Read4(b, 46) as int <= |file|
  }

  /**
   The Finder info and the resource fork; `b` is the header with its fields in host order. With the flag for stat
   information the error of an unreadable fork is overwritten by what copyfile_stat returns, which is always 0.
   */
  function UnpackForks(file: seq<byte>, b: seq<byte>, m: Attrs, stat: bool): Outcome
    requires |b| >= PAD_OFFSET
  {
    var offset := Read4(b, 30);
    if offset > |b| - FINFO_SIZE then Outcome(false, m)
    else
      var finfo := b[offset..offset + FINFO_SIZE];
      var m1 := if finfo == Zeros(FINFO_SIZE) then m else m[FINDERINFO_NAME := finfo];
      if Read4(b, 38) == AD_RESOURCE && Read4(b, 46) > 0 then
        var from: nat, length: nat := Read4(b, 42), Read4(b, 46);
        if from + length > |file| then Outcome(stat, m1)
        else Outcome(true, m1[RESOURCEFORK_NAME := file[from..from + length]])
      else Outcome(true, m1)
  }

  function UnpackFile(file: seq<byte>, dst: Attrs, stat: bool): (r: Outcome)
    requires Walkable(file)
  {
    var buf := file[..HeaderSize(file)];
    if !HeaderOk(buf) then Outcome(false, dst)
    else
      HeaderOkFits(buf);
      var b := SwapAd(buf);
      if Read4(b, 34) <= FINFO_SIZE then UnpackForks(file, b, map[], stat)
      else if |b| < AT_TABLE then Outcome(false, map[])
      else
        var c := SwapAttr(b);
        if Read4(c, AT_MAGIC) != ATTR_HDR_MAGIC then Outcome(false, map[])
        else
          var r := ParseTable(c, AT_TABLE, Read2(c, AT_NUM_ATTRS), map[]);
          if r.ok then UnpackForks(file, c, r.attrs, stat) else r
  }

  /** The attributes do not depend on that flag; an unreadable fork is reported exactly without it. */
  lemma ForkReported(file: seq<byte>, b: seq<byte>, m: Attrs, stat: bool)
    requires |b| >= PAD_OFFSET
    ensures UnpackForks(file, b, m, stat).attrs == UnpackForks(file, b, m, !stat).attrs
    ensures UnpackForks(file, b, m, stat).ok <==> Read4(b, 30) <= |b| - FINFO_SIZE && (stat || ForkReadable(file, b))
    ensures Read4(b, 30) <= |b| - FINFO_SIZE && RESOURCEFORK_NAME !in m ==>
              (RESOURCEFORK_NAME in UnpackForks(file, b, m, stat).attrs <==>
               Read4(b, 38) == AD_RESOURCE && Read4(b, 46) > 0 && ForkReadable(file, b))
  {
    hide Read4;
    assert |FINDERINFO_NAME| == 20 && |RESOURCEFORK_NAME| == 22;
  }

  /** A checked entry is set, and the next one located. */
  method ExtractEntry(buffer: array<byte>, at: nat, m: Attrs) returns (m': Attrs, next: nat)
    requires GoodEntry(buffer[..], at)
    ensures m' == SetAttr(m, EntryName(buffer[..], at), EntryValue(buffer[..], at))
    ensures next == at + EntryLength(buffer[..][at + AE_NAMELEN])
  {
    hide CString, Join4;
    var namelen := buffer[at + AE_NAMELEN];
    assert namelen == buffer[..][at + AE_NAMELEN];
    var offset: nat := Get32(buffer, at);
    var length: nat := Get32(buffer, at + 4);
    var name := CString(buffer[at + AE_NAME..at + AE_NAME + namelen]);
    assert buffer[at + AE_NAME..at + AE_NAME + namelen] == buffer[..][at + AE_NAME..at + AE_NAME + namelen];
    assert buffer[offset..offset + length] == buffer[..][offset..offset + length];
    m' := if name != QUARANTINE_NAME then m[name := buffer[offset..offset + length]] else m;
    next := at + EntryLength(namelen);
  }

  method ExtractAttrs(buffer: array<byte>) returns (r: Outcome)
    requires buffer.Length >= AT_TABLE
    ensures r == ParseTable(buffer[..], AT_TABLE, Read2(buffer[..], AT_NUM_ATTRS), map[])
  {
    hide GoodEntry, CString, EntryName, EntryValue, SetAttr, Join2;
    var count: nat := Get16(buffer, AT_NUM_ATTRS);
    var at: nat := AT_TABLE;
    var m: Attrs := map[];
    for i := 0 to count
      invariant ParseTable(buffer[..], AT_TABLE, count, map[]) == ParseTable(buffer[..], at, count - i, m)
    {
      var good := CheckEntry(buffer, at);
      if !good {
        return Outcome(false, m);
      }
      NameLengthInside(buffer[..], at);
      m, at := ExtractEntry(buffer, at, m);
    }
    r := Outcome(true, m);
  }

  lemma NameLengthInside(b: seq<byte>, at: nat)
    requires GoodEntry(b, at)
    ensures at + AE_NAMELEN < |b|
  {}

  /** The checks of the entry loop, in their order. */
  method CheckEntry(buffer: array<byte>, at: nat) returns (good: bool)
    ensures good <==> GoodEntry(buffer[..], at)
  {
    hide Join4;
    if at >= buffer.Length || at + AE_SIZE > buffer.Length {
      return false;
    }
    var namelen := buffer[at + AE_NAMELEN];
    if namelen < 2 || namelen > XATTR_MAXNAMELEN + 1 {
      return false;
    }
    if at + AE_NAME + namelen > buffer.Length {
      return false;
    }
    if buffer[at + AE_NAME + namelen - 1] != 0 {
      return false;
    }
    var offset: nat := Get32(buffer, at);
    var length: nat := Get32(buffer, at + 4);
    if offset > buffer.Length {
      return false;
    }
    good := !(offset + length > buffer.Length || length > buffer.Length);
  }

  method ExtractForks(file: seq<byte>, buffer: array<byte>, m0: Attrs, stat: bool) returns (r: Outcome)
    requires buffer.Length >= PAD_OFFSET
    ensures r == UnpackForks(file, buffer[..], m0, stat)
  {
    var m, ok := m0, true;
    var offset := Get32(buffer, 30);
    if offset > buffer.Length - FINFO_SIZE {
      return Outcome(false, m);
    }
    if buffer[offset..offset + FINFO_SIZE] != Zeros(FINFO_SIZE) {
      m := m[FINDERINFO_NAME := buffer[offset..offset + FINFO_SIZE]];
    }
    var kind := Get32(buffer, 38);
    var from: nat := Get32(buffer, 42);
    var length: nat := Get32(buffer, 46);
    if kind == AD_RESOURCE && length > 0 {
      if from + length > |file| {
        ok := false;
      } else {
        m := m[RESOURCEFORK_NAME := file[from..from + length]];
      }
    }
    if stat {
      ok := true;
    }
    r := Outcome(ok, m);
  }

  /**
   copyfile_unpack with COPYFILE_XATTR and without COPYFILE_ACL, to a destination with attributes `dst`; `stat` is
   COPYFILE_STAT. `inside` tells whether the endian swap stays in the buffer; the model stops if it does not.
   */
  method Unpack(file: seq<byte>, dst: Attrs, stat: bool) returns (inside: bool, r: Outcome)
    ensures inside <==> Walkable(file)
    ensures inside ==> r == UnpackFile(file, dst, stat)
  {
    hide AdFits, AttrFits, SwapAd, SwapAttr, ParseTable, UnpackForks, Swap32, Swap16, Flip;
    var hdrsize := HeaderSize(file);
    var buffer := new byte[hdrsize](k requires 0 <= k < hdrsize => file[k]);
    assert buffer[..] == file[..hdrsize];
    if !HeaderOk(buffer[..]) {
      return true, Outcome(false, dst);
    }
    HeaderOkFits(buffer[..]);
    SwapAdhdr(buffer);
    var m: Attrs := map[];
    var length := Get32(buffer, 34);
    if length > FINFO_SIZE {
      if hdrsize < AT_TABLE {
        return true, Outcome(false, m);
      }
      inside := SwapAttrhdr(buffer);
      if !inside {
        return false, Outcome(false, m);
      }
      var magic := Get32(buffer, AT_MAGIC);
      if magic != ATTR_HDR_MAGIC {
        return true, Outcome(false, m);
      }
      r := ExtractAttrs(buffer);
      if !r.ok {
        return true, r;
      }
      m := r.attrs;
    }
    inside := true;
    r := ExtractForks(file, buffer, m, stat);
  }

  // ---- Reading back the fixed header ----

  lemma EntryParts(f: seq<byte>, a: seq<byte>, b: seq<byte>, c: seq<byte>, x: seq<byte>)
    requires |a| == |b| == |c| == 4
    ensures var s := f + (a + b + c) + x;
            && s[|f|..|f| + 4] == a && s[|f| + 4..|f| + 8] == b && s[|f| + 8..|f| + 12] == c
  {}

  lemma ReadEnc(s: seq<byte>, at: nat, v: u32)
    requires at + 4 <= |s| && s[at..at + 4] == Enc4(Host, v)
    ensures Read4(s, at) == v
  {
    hide Join4, Host4;
    EncSwapped(Host, v);
    var e := s[at..at + 4];
    assert e[0] == s[at] && e[1] == s[at + 1] && e[2] == s[at + 2] && e[3] == s[at + 3];
  }

  lemma ReadBig(s: seq<byte>, at: nat, v: u32)
    requires at + 4 <= |s| && s[at..at + 4] == Enc4(Big, v)
    ensures Swap32(Read4(s, at)) == v
  {
    hide Join4, Big4, Swap32;
    EncSwapped(Big, v);
    var e := s[at..at + 4];
    assert e[0] == s[at] && e[1] == s[at + 1] && e[2] == s[at + 2] && e[3] == s[at + 3];
    assert Read4(e, 0) == Read4(s, at);
  }

  lemma ReadAd(h: Header, x: seq<byte>)
    ensures var b := EncAd(Host, h) + x;
            && Read4(b, 30) == 50 && Read4(b, 34) == h.finfoLength
            && Read4(b, 38) == AD_RESOURCE && Read4(b, 42) == h.rsrcOffset && Read4(b, 46) == h.rsrcLength
  {
    hide Read4, EncAdFixed, Enc4;
    var f := EncAdFixed(Host);
    var e1, e2 := EncAdEntry(Host, AD_FINDERINFO, 50, h.finfoLength),
      EncAdEntry(Host, AD_RESOURCE, h.rsrcOffset, h.rsrcLength);
    var b := EncAd(Host, h) + x;
    EntryParts(f, Enc4(Host, AD_FINDERINFO), Enc4(Host, 50), Enc4(Host, h.finfoLength), e2 + x);
    EntryParts(f + e1, Enc4(Host, AD_RESOURCE), Enc4(Host, h.rsrcOffset), Enc4(Host, h.rsrcLength), x);
    assert b == f + e1 + (e2 + x) && b == f + e1 + e2 + x;
    ReadEnc(b, 30, 50);
    ReadEnc(b, 34, h.finfoLength);
    ReadEnc(b, 38, AD_RESOURCE);
    ReadEnc(b, 42, h.rsrcOffset);
    ReadEnc(b, 46, h.rsrcLength);
  }

  lemma FixedFields(a: seq<byte>, b: seq<byte>, c: seq<byte>, d: seq<byte>, e: seq<byte>, x: seq<byte>)
    requires |a| == |b| == 4 && |c| == 16 && |d| == 2 && |e| == 4
    ensures var s := a + b + c + d + (e + x);
            s[0..4] == a && s[4..8] == b && s[24] == d[0] && s[25] == d[1] && s[26..30] == e
  {}

  lemma PackedHeaderOk(h: Header, x: seq<byte>)
    requires |x| >= FINFO_SIZE
    ensures HeaderOk(EncAd(Big, h) + x)
  {
    hide Read4, Enc4, Swap32;
    var m, v, e := Enc4(Big, ADH_MAGIC), Enc4(Big, ADH_VERSION), Enc4(Big, AD_FINDERINFO);
    var y := Enc4(Big, 50) + Enc4(Big, h.finfoLength) + EncAdEntry(Big, AD_RESOURCE, h.rsrcOffset, h.rsrcLength) + x;
    FixedFields(m, v, ADH_MACOSX, Enc2(Big, 2), e, y);
    var b := EncAd(Big, h) + x;
    assert b == m + v + ADH_MACOSX + Enc2(Big, 2) + (e + y);
    ReadBig(b, 0, ADH_MAGIC);
    ReadBig(b, 4, ADH_VERSION);
    ReadBig(b, 26, AD_FINDERINFO);
  }

  // ---- Files on which the walk leaves the buffer ----

  /**
   The swap stays in the buffer exactly if the entries before the last one and eleven bytes of that lie in what is read
   of the file; `names` are the name lengths in the entries before the last one.
   */
  lemma WalkableExactly(file: seq<byte>, names: seq<byte>)
    requires var buf := file[..HeaderSize(file)];
             && HeaderOk(buf)
             && AdFits(buf) && HeaderSize(file) >= AT_TABLE && Read4(SwapAd(buf), 34) > FINFO_SIZE
             && AttrCount(SwapAd(buf)) == |names| + 1 && Reads(SwapAd(buf)[AT_TABLE..], names)
    ensures Walkable(file) <==> AT_TABLE + Steps(names) + AE_NAME <= HeaderSize(file)
  {
    hide SwapAd, HeaderOk, Read4, AttrCount, TableFits, Reads, AdFits;
    FitsExactly(SwapAd(file[..HeaderSize(file)])[AT_TABLE..], names);
  }

  /** A file of 120 bytes: header, Finder info, and an attribute header that announces one entry. */
  function Truncated(): (f: seq<byte>)
    ensures |f| == AT_TABLE
  {
    var h := Header(33, 120, 0, 0, 120, 120, 0, 1);
    EncAd(Big, h) + (Zeros(FINFO_SIZE) + ([0, 0] + EncAt(Big, h)))
  }

  /** The entry that this file announces lies behind its end. */
  lemma WalkLeaves()
    ensures !Walkable(Truncated())
  {
    hide EncAd, EncAt, SwapAd, Read4, AttrCount, AdFits, TableFits, HeaderOk;
    var h := Header(33, 120, 0, 0, 120, 120, 0, 1);
    var f := Truncated();
    var x := Zeros(FINFO_SIZE) + ([0, 0] + EncAt(Big, h));
    assert f[..HeaderSize(f)] == f;
    PackedHeaderOk(h, x);
    SwapAdImage(Big, h, x);
    ReadAd(h, x);
    var a := EncAd(Host, h) + Zeros(FINFO_SIZE) + [0, 0];
    assert SwapAd(f) == a + EncAt(Big, h) + [];
    AttrCountIs(Big, h, a, []);
    NothingRead(SwapAd(f)[AT_TABLE..]);
    WalkableExactly(f, []);
  }

  lemma NothingRead(t: seq<byte>)
    ensures Reads(t, []) && Steps([]) == 0
  {}

  /** A file of 82 bytes that announces a fork of one byte behind its end. */
  function ForkMissing(): (f: seq<byte>)
    ensures |f| == PAD_OFFSET
  {
    EncAd(Big, Header(FINFO_SIZE, PAD_OFFSET, 1, 0, 0, 0, 0, 0)) + Zeros(FINFO_SIZE)
  }

  /** Its fork cannot be read; with the flag for stat information unpacking succeeds all the same. */
  lemma ForkErrorLost(dst: Attrs)
    ensures var f := ForkMissing();
            && Walkable(f) && !UnpackFile(f, dst, false).ok
            && UnpackFile(f, dst, true) == Outcome(true, map[])
  {
    hide EncAd, SwapAd, Read4, AdFits, HeaderOk, AttrFits;
    var h := Header(FINFO_SIZE, PAD_OFFSET, 1, 0, 0, 0, 0, 0);
    var f := ForkMissing();
    assert f[..HeaderSize(f)] == f;
    PackedHeaderOk(h, Zeros(FINFO_SIZE));
    SwapAdImage(Big, h, Zeros(FINFO_SIZE));
    ReadAd(h, Zeros(FINFO_SIZE));
    assert SwapAd(f)[50..82] == Zeros(FINFO_SIZE);
  }
}
