/** copyfile_pack: a file's attributes become an AppleDouble image, laid out in a zeroed buffer in host order. */
module AppleDoublePack {
  import opened Bytes
  import opened EndianSwap
  import opened AppleDouble

  /** A file with the attribute names in the order in which flistxattr gives them. */
  datatype Source = Source(names: seq<Name>, attrs: Attrs, inode: u32)

  /** What the system guarantees of the attributes of a file. */
  ghost predicate ValidSource(src: Source) {
    && (forall n | n in src.names :: n in src.attrs)
    && (forall n | n in src.attrs :: n in src.names)
    && (forall i, j | 0 <= i < j < |src.names| :: src.names[i] != src.names[j])
  }

  predicate IsFork(n: seq<byte>) {
    n == FINDERINFO_NAME || n == RESOURCEFORK_NAME
  }

  function Ordinary(ns: seq<Name>): (r: seq<Name>)
  {
    if ns == [] then []
    else
      var n := ns[|ns| - 1];
      if IsFork(n) then Ordinary(ns[..|ns| - 1]) else Ordinary(ns[..|ns| - 1]) + [n]
  }

  /** What fgetxattr gives. */
  function Value(attrs: Attrs, n: seq<byte>): seq<byte> {
    if n in attrs then attrs[n] else []
  }

  /** Empty and oversized values are left out of the data area. */
  predicate Kept(v: seq<byte>) {
    0 < |v| <= XATTR_MAXATTRLEN
  }

  function Values(ns: seq<Name>, attrs: Attrs): (s: seq<byte>)
  {
    if ns == [] then []
    else
      var v := Value(attrs, ns[|ns| - 1]);
      Values(ns[..|ns| - 1], attrs) + if Kept(v) then v else []
  }

  function TableSize(ns: seq<Name>): (n: nat)
    ensures n >= 16 * |ns|
  {
    if ns == [] then 0 else TableSize(ns[..|ns| - 1]) + SizeOf(ns[|ns| - 1])
  }

  function NamesLength(ns: seq<Name>): nat {
    if ns == [] then 0 else NamesLength(ns[..|ns| - 1]) + |ns[|ns| - 1]| + 1
  }

  /** A list of names too long for the name buffer is not obtained at all. */
  function Listed(src: Source): seq<Name> {
    if NamesLength(src.names) <= ATTR_MAX_HDR_SIZE then src.names else []
  }

  function DataStart(ns: seq<Name>): nat
  {
    AT_TABLE + TableSize(ns)
  }

  predicate TableInBuffer(ns: seq<Name>)
  {
    ns == [] || DataStart(ns) < ATTR_MAX_SIZE
  }

  /** Header, table and values together do not exceed the buffer. */
  predicate DataInBuffer(ns: seq<Name>, attrs: Attrs)
  {
    DataStart(ns) + |Values(ns, attrs)| <= ATTR_MAX_SIZE
  }

  /** The table entry of a name whose value would go to `at`. */
  function Place(n: Name, attrs: Attrs, at: nat): (e: Entry)
    requires at <= ATTR_MAX_SIZE
  {
    if Kept(Value(attrs, n)) then Entry(at, |Value(attrs, n)|, n) else Entry(0, 0, n)
  }

  function Layout(ns: seq<Name>, attrs: Attrs, start: nat): (es: seq<Entry>)
    requires start + |Values(ns, attrs)| <= ATTR_MAX_SIZE
    ensures |es| == |ns| && forall i | 0 <= i < |ns| :: es[i].name == ns[i]
  {
    if ns == [] then []
    else
      var init, n := ns[..|ns| - 1], ns[|ns| - 1];
      Layout(init, attrs, start) + [Place(n, attrs, start + |Values(init, attrs)|)]
  }

  function FinderInfo(src: Source, listed: seq<Name>): (s: seq<byte>)
    ensures |s| == FINFO_SIZE
  {
    if FINDERINFO_NAME in listed && |Value(src.attrs, FINDERINFO_NAME)| <= FINFO_SIZE
    then Value(src.attrs, FINDERINFO_NAME) + Zeros(FINFO_SIZE - |Value(src.attrs, FINDERINFO_NAME)|)
    else Zeros(FINFO_SIZE)
  }

  function Rsrc(src: Source, listed: seq<Name>): (s: seq<byte>)
  {
    if RESOURCEFORK_NAME in listed then Value(src.attrs, RESOURCEFORK_NAME) else []
  }

  /** What packing this file demands: the buffer holds what is put there, and the fork has a 31-bit size. */
  ghost predicate Packable(src: Source) {
    && ValidSource(src)
    && SECURITY_NAME !in src.attrs
    && TableInBuffer(Ordinary(Listed(src)))
    && DataInBuffer(Ordinary(Listed(src)), src.attrs)
    && |Rsrc(src, Listed(src))| <= INT_MAX
  }

  /** Where the resource fork goes: after the values, or over the padding when there are none. */
  function HeaderEnd(src: Source): (n: nat)
  {
    var ns := Ordinary(Listed(src));
    var vals := Values(ns, src.attrs);
    if |vals| > 0 then DataStart(ns) + |vals| else PAD_OFFSET
  }

  function PackHeader(src: Source): Header
    requires Packable(src)
  {
    var ns := Ordinary(Listed(src));
    var vals := Values(ns, src.attrs);
    var end := HeaderEnd(src);
    Header(end - FINFO_OFFSET, end, |Rsrc(src, Listed(src))|, src.inode,
           if |vals| > 0 then end else 0, DataStart(ns), |vals|, |ns|)
  }

  /** The packed file, in file order; without values it has neither attribute header nor table. */
  function PackFile(src: Source): (f: seq<byte>)
    requires Packable(src)
  {
    var ns := Ordinary(Listed(src));
    var vals := Values(ns, src.attrs);
    var h := PackHeader(src);
    var front := EncAd(Big, h) + FinderInfo(src, Listed(src));
    if |vals| > 0
    then front + [0, 0] + EncAt(Big, h) + EncTable(Big, Layout(ns, src.attrs, DataStart(ns))) + vals +
      Rsrc(src, Listed(src))
    else front + Rsrc(src, Listed(src))
  }

  // ---- Facts about the layout ----

  lemma {:induction false} ValuesPrefix(ns: seq<Name>, attrs: Attrs, i: nat)
    requires i <= |ns|
    ensures Values(ns[..i], attrs) <= Values(ns, attrs)
  {
    if i == |ns| {
      assert ns[..i] == ns;
    } else {
      var init := ns[..|ns| - 1];
      assert init[..i] == ns[..i];
      ValuesPrefix(init, attrs, i);
    }
  }

  lemma {:induction false} TableSizePrefix(ns: seq<Name>, i: nat)
    requires i <= |ns|
    ensures TableSize(ns[..i]) <= TableSize(ns)
  {
    if i == |ns| {
      assert ns[..i] == ns;
    } else {
      var init := ns[..|ns| - 1];
      assert init[..i] == ns[..i];
      TableSizePrefix(init, i);
    }
  }

  lemma {:induction false} EncTableAppend(o: Order, a: seq<Entry>, b: seq<Entry>)
    ensures EncTable(o, a + b) == EncTable(o, a) + EncTable(o, b)
  {
    if a == [] {
      assert a + b == b;
    } else {
      assert (a + b)[0] == a[0] && (a + b)[1..] == a[1..] + b;
      EncTableAppend(o, a[1..], b);
    }
  }

  lemma {:induction false} EncTableLength(o: Order, es: seq<Entry>, ns: seq<Name>)
    requires |es| == |ns| && forall i | 0 <= i < |ns| :: es[i].name == ns[i]
    ensures |EncTable(o, es)| == TableSize(ns)
  {
    if ns == [] {
    } else {
      var k := |ns| - 1;
      assert es == es[..k] + [es[k]];
      EncTableAppend(o, es[..k], [es[k]]);
      assert EncTable(o, [es[k]]) == EncEntry(o, es[k]) + EncTable(o, []);
      EncTableLength(o, es[..k], ns[..k]);
    }
  }

  function Blank(ns: seq<Name>): (es: seq<Entry>)
    ensures |es| == |ns|
  {
    seq(|ns|, i requires 0 <= i < |ns| => Entry(0, 0, ns[i]))
  }

  // ---- The buffer after the header ----

  /** A name goes into zeroed memory: name length, flags and the NUL-terminated name. */
  method PutName(area: array<byte>, at: nat, name: Name, ghost p: seq<byte>, ghost n: nat)
    requires |p| == at && SizeOf(name) <= n && area[..] == p + Zeros(n)
    modifies area
    ensures area[..] == p + EncEntry(Host, Entry(0, 0, name)) + Zeros(n - SizeOf(name))
  {
    ghost var z, q := Zeros(SizeOf(name)), Zeros(n - SizeOf(name));
    assert area[..] == p + z + q;
    area[at + AE_NAMELEN] := |name| + 1;
    assert area[..] == p + Splice(z, AE_NAMELEN, [|name| + 1]) + q;
    Put16(area, at + 8, 0);
    PutBytes(area, at + AE_NAME, name + [0]);
    var e := Splice(Splice(Splice(z, AE_NAMELEN, [|name| + 1]), 8, Host2(0)), AE_NAME, name + [0]);
    SpliceInside(p, Splice(z, AE_NAMELEN, [|name| + 1]), q, 8, Host2(0));
    SpliceInside(p, Splice(Splice(z, AE_NAMELEN, [|name| + 1]), 8, Host2(0)), q, AE_NAME, name + [0]);
    assert e == EncEntry(Host, Entry(0, 0, name));
  }

  /** `entry->length` and `entry->offset`. */
  method PutPlace(area: array<byte>, at: nat, offset: u32, length: u32, ghost p: seq<byte>, ghost name: Name,
      ghost q: seq<byte>)
    requires |p| == at && area[..] == p + EncEntry(Host, Entry(0, 0, name)) + q
    modifies area
    ensures area[..] == p + EncEntry(Host, Entry(offset, length, name)) + q
  {
    ghost var e := EncEntry(Host, Entry(0, 0, name));
    Put32(area, at + 4, length);
    Put32(area, at, offset);
    SpliceInside(p, e, q, 4, Host4(length));
    SpliceInside(p, Splice(e, 4, Host4(length)), q, 0, Host4(offset));
    assert Splice(Splice(e, 4, Host4(length)), 0, Host4(offset)) == EncEntry(Host, Entry(offset, length, name));
  }

  lemma SpliceZeros(p: seq<byte>, n: nat, r: seq<byte>)
    requires |r| <= n
    ensures Splice(p + Zeros(n), |p|, r) == p + r + Zeros(n - |r|)
  {}

  lemma {:induction false} OrdinaryPrefix(l: seq<Name>, i: nat)
    requires i <= |l|
    ensures Ordinary(l[..i]) <= Ordinary(l)
    decreases |l| - i
  {
    if i == |l| {
      assert l[..i] == l;
    } else {
      OrdinaryStep(l, i);
      OrdinaryPrefix(l, i + 1);
    }
  }

  lemma OrdinaryStep(l: seq<Name>, i: nat)
    requires i < |l|
    ensures Ordinary(l[..i + 1]) == if IsFork(l[i]) then Ordinary(l[..i]) else Ordinary(l[..i]) + [l[i]]
  {
    var m := l[..i + 1];
    assert m[..|m| - 1] == l[..i] && m[|m| - 1] == l[i];
  }

  lemma BlankAppend(ns: seq<Name>, n: Name)
    ensures EncTable(Host, Blank(ns + [n])) == EncTable(Host, Blank(ns)) + EncEntry(Host, Entry(0, 0, n))
  {
    var e := Entry(0, 0, n);
    assert Blank(ns + [n]) == Blank(ns) + [e];
    EncTableAppend(Host, Blank(ns), [e]);
    assert EncTable(Host, [e]) == EncEntry(Host, e) + EncTable(Host, []);
  }

  lemma TableSizeStep(ns: seq<Name>, n: Name)
    ensures TableSize(ns + [n]) == TableSize(ns) + SizeOf(n)
  {
    assert (ns + [n])[..|ns|] == ns;
  }

  /** The table never gets smaller again, so a prefix that does not fit settles the matter. */
  lemma PrefixInBuffer(listed: seq<Name>, i: nat)
    requires i <= |listed|
    ensures TableSize(Ordinary(listed[..i])) <= TableSize(Ordinary(listed))
    ensures TableInBuffer(Ordinary(listed)) ==> TableInBuffer(Ordinary(listed[..i]))
  {
    var ns := Ordinary(listed[..i]);
    OrdinaryPrefix(listed, i);
    assert Ordinary(listed)[..|ns|] == ns;
    TableSizePrefix(Ordinary(listed), |ns|);
  }

  const AREA_SIZE: nat := ATTR_MAX_SIZE - AT_TABLE

  ghost predicate HoldsNames(area: seq<byte>, ns: seq<Name>, at: nat) {
    && at == TableSize(ns) == |EncTable(Host, Blank(ns))| <= |area|
    && area == EncTable(Host, Blank(ns)) + Zeros(|area| - at)
  }

  method AppendName(area: array<byte>, at: nat, name: Name, ghost ns: seq<Name>) returns (next: nat)
    requires HoldsNames(area[..], ns, at) && at + SizeOf(name) <= area.Length
    modifies area
    ensures HoldsNames(area[..], ns + [name], next) && next == at + SizeOf(name)
  {
    PutName(area, at, name, EncTable(Host, Blank(ns)), area.Length - at);
    BlankAppend(ns, name);
    TableSizeStep(ns, name);
    next := at + EntryLength(|name| + 1);
  }

  /** Every entry that is written lies in the buffer: those that come behind entries that fit. */
  ghost predicate NamesInside(ns: seq<Name>) {
    forall i | 0 <= i < |ns| && TableInBuffer(ns[..i]) :: TableSize(ns[..i]) + AE_NAME + |ns[i]| + 1 <= AREA_SIZE
  }

  /**
   One entry of the first pass. It is written before the end of the buffer is looked at; `inside` tells whether all that
   is written lies in it, and the model stops if it does not.
   */
  method CollectName(area: array<byte>, listed: seq<Name>, i: nat, at: nat, ghost ns: seq<Name>)
    returns (inside: bool, ok: bool, next: nat)
    requires area.Length == AREA_SIZE && i < |listed| && !IsFork(listed[i]) && ns == Ordinary(listed[..i])
    requires HoldsNames(area[..], ns, at) && TableInBuffer(ns)
    modifies area
    ensures ok ==> inside && TableInBuffer(ns + [listed[i]]) && Ordinary(listed[..i + 1]) == ns + [listed[i]]
    ensures ok ==> next == at + SizeOf(listed[i]) && HoldsNames(area[..], ns + [listed[i]], next)
    ensures !ok ==> !TableInBuffer(Ordinary(listed)) && (inside <==> NamesInside(Ordinary(listed)))
  {
    hide HoldsNames, TableSize, Ordinary, TableInBuffer, NamesInside, IsFork;
    NextName(area[..], listed, i, ns, at);
    if at + AE_NAME + |listed[i]| + 1 > AREA_SIZE {
      return false, false, at;
    }
    next := AppendName(area, at, listed[i], ns);
    inside, ok := true, next < AREA_SIZE;
  }

  /** The first pass over the names: a table of entries without values. */
  method CollectNames(area: array<byte>, listed: seq<Name>) returns (inside: bool, ok: bool, num: nat, start: nat)
    requires area.Length == AREA_SIZE && area[..] == Zeros(AREA_SIZE)
    modifies area
    ensures inside <==> NamesInside(Ordinary(listed))
    ensures ok <==> TableInBuffer(Ordinary(listed))
    ensures ok ==> inside && num == |Ordinary(listed)| && start == DataStart(Ordinary(listed))
    ensures ok ==> HoldsNames(area[..], Ordinary(listed), start - AT_TABLE)
  {
    inside, ok, num, start := true, true, 0, AT_TABLE;
    var at: nat := 0;
    ghost var ns: seq<Name> := [];
    assert HoldsNames(area[..], [], 0) && Ordinary([]) == [] && TableInBuffer([]);
    hide HoldsNames, TableSize, Ordinary, TableInBuffer, DataStart, NamesInside;
    for i := 0 to |listed|
      invariant ns == Ordinary(listed[..i]) && num == |ns| && start == AT_TABLE + at
      invariant inside && ok && HoldsNames(area[..], ns, at) && TableInBuffer(ns)
    {
      if IsFork(listed[i]) {
        ForkSkipped(listed, i);
        continue;
      }
      var next: nat;
      inside, ok, next := CollectName(area, listed, i, at, ns);
      if !ok {
        return;
      }
      ns := ns + [listed[i]];
      num := num + 1;
      start := start + EntryLength(|listed[i]| + 1);
      at := next;
    }
    assert listed[..|listed|] == listed;
    NamesStart(area[..], ns, at);
    TableInside(ns);
  }

  /** A table that fits is written inside the buffer. */
  lemma TableInside(ns: seq<Name>)
    requires TableInBuffer(ns)
    ensures NamesInside(ns)
  {
    forall i | 0 <= i < |ns| {
      EntryInside(ns, i);
    }
  }

  lemma EntryInside(ns: seq<Name>, i: nat)
    requires TableInBuffer(ns) && i < |ns|
    ensures TableSize(ns[..i]) + AE_NAME + |ns[i]| + 1 <= AREA_SIZE
  {
    hide TableSize;
    assert ns[..i + 1] == ns[..i] + [ns[i]];
    TableSizeStep(ns[..i], ns[i]);
    TableSizePrefix(ns, i + 1);
  }

  /** The first entry that does not fit decides; with padding it must end exactly where the buffer does. */
  lemma NamesInsideExactly(ns: seq<Name>, i: nat)
    requires i < |ns| && TableInBuffer(ns[..i]) && !TableInBuffer(ns[..i + 1])
    ensures NamesInside(ns) <==> TableSize(ns[..i]) + AE_NAME + |ns[i]| + 1 <= AREA_SIZE
    ensures NamesInside(ns) <==> TableSize(ns[..i + 1]) == AREA_SIZE
  {
    hide TableSize, SizeOf;
    assert ns[..i + 1] == ns[..i] + [ns[i]];
    TableSizeStep(ns[..i], ns[i]);
    Rounded(ns[..i], ns[i]);
    forall k | 0 <= k < |ns| && k != i && TableInBuffer(ns[..k])
      ensures TableSize(ns[..k]) + AE_NAME + |ns[k]| + 1 <= AREA_SIZE
    {
      PrefixesGrow(ns, i, k);
    }
  }

  /** An entry before the `i`-th fits; behind it nothing is written. */
  lemma PrefixesGrow(ns: seq<Name>, i: nat, k: nat)
    requires i < |ns| && k < |ns| && TableInBuffer(ns[..i]) && !TableInBuffer(ns[..i + 1])
    ensures if k < i then TableSize(ns[..k]) + AE_NAME + |ns[k]| + 1 <= AREA_SIZE else k > i ==> !TableInBuffer(ns[..k])
  {
    hide TableSize;
    if k < i {
      assert ns[..i][..k] == ns[..k] && ns[..i][k] == ns[k];
      EntryInside(ns[..i], k);
    } else if k > i {
      assert ns[..k][..i + 1] == ns[..i + 1];
      TableSizePrefix(ns[..k], i + 1);
    }
  }

  lemma {:induction false} TableSizeAligned(ns: seq<Name>)
    ensures TableSize(ns) % 4 == 0
  {
    if ns != [] {
      TableSizeAligned(ns[..|ns| - 1]);
    }
  }

  /** The padding of an entry never is what crosses the end of the buffer. */
  lemma Rounded(ns: seq<Name>, n: Name)
    ensures TableSize(ns) + AE_NAME + |n| + 1 <= AREA_SIZE <==> TableSize(ns) + SizeOf(n) <= AREA_SIZE
  {
    hide TableSize;
    TableSizeAligned(ns);
  }

  lemma ForkSkipped(listed: seq<Name>, i: nat)
    requires i < |listed| && IsFork(listed[i])
    ensures Ordinary(listed[..i + 1]) == Ordinary(listed[..i])
  {
    OrdinaryStep(listed, i);
  }

  lemma NamesStart(area: seq<byte>, ns: seq<Name>, at: nat)
    requires HoldsNames(area, ns, at)
    ensures DataStart(ns) == AT_TABLE + at
  {}

  lemma NextName(area: seq<byte>, listed: seq<Name>, i: nat, ns: seq<Name>, at: nat)
    requires i < |listed| && !IsFork(listed[i]) && ns == Ordinary(listed[..i]) && HoldsNames(area, ns, at)
    ensures Ordinary(listed[..i + 1]) == ns + [listed[i]]
    requires TableInBuffer(ns)
    ensures at + AE_NAME + |listed[i]| + 1 <= AREA_SIZE <==> at + SizeOf(listed[i]) <= AREA_SIZE
    ensures at + SizeOf(listed[i]) >= AREA_SIZE ==>
              && !TableInBuffer(Ordinary(listed))
              && (NamesInside(Ordinary(listed)) <==> at + SizeOf(listed[i]) == AREA_SIZE)
    ensures at + SizeOf(listed[i]) < AREA_SIZE ==> TableInBuffer(ns + [listed[i]])
  {
    hide Ordinary, TableSize, EncTable, Blank, Zeros, NamesInside, SizeOf;
    OrdinaryStep(listed, i);
    TableSizeStep(ns, listed[i]);
    Rounded(ns, listed[i]);
    PrefixInBuffer(listed, i + 1);
    OrdinaryPrefix(listed, i + 1);
    var all := Ordinary(listed);
    assert all[..|ns| + 1] == ns + [listed[i]] && all[..|ns|] == ns;
    if at + SizeOf(listed[i]) >= AREA_SIZE {
      NamesInsideExactly(all, |ns|);
    }
  }

  // ---- The second pass: values ----

  /** The finished entries of the names `done`. */
  function HeadOf(done: seq<Name>, attrs: Attrs, start: nat): (s: seq<byte>)
    requires start + |Values(done, attrs)| <= ATTR_MAX_SIZE
  {
    EncTable(Host, Layout(done, attrs, start))
  }

  /** The area when the names `done` have their values and the entries of `todo` are still blank. */
  ghost predicate HoldsValues(area: seq<byte>, done: seq<Name>, todo: seq<Name>, attrs: Attrs, start: nat) {
    && |area| == AREA_SIZE && start + |Values(done, attrs)| <= ATTR_MAX_SIZE
    && area == HeadOf(done, attrs, start) + (EncTable(Host, Blank(todo)) + Values(done, attrs) +
                                             Zeros(ATTR_MAX_SIZE - start - |Values(done, attrs)|))
  }

  lemma ValuesStep(done: seq<Name>, n: Name, attrs: Attrs)
    ensures Values(done + [n], attrs) ==
            if Kept(Value(attrs, n)) then Values(done, attrs) + Value(attrs, n) else Values(done, attrs)
  {
    assert (done + [n])[..|done|] == done;
    assert Values(done, attrs) + [] == Values(done, attrs);
  }

  lemma LayoutStep(done: seq<Name>, n: Name, attrs: Attrs, start: nat)
    requires start + |Values(done + [n], attrs)| <= ATTR_MAX_SIZE
    ensures start + |Values(done, attrs)| <= ATTR_MAX_SIZE
    ensures Layout(done + [n], attrs, start) ==
            Layout(done, attrs, start) + [Place(n, attrs, start + |Values(done, attrs)|)]
  {
    assert (done + [n])[..|done|] == done;
  }

  lemma TableStep(es: seq<Entry>, e: Entry)
    ensures EncTable(Host, es + [e]) == EncTable(Host, es) + EncEntry(Host, e)
  {
    EncTableAppend(Host, es, [e]);
    assert EncTable(Host, [e]) == EncEntry(Host, e) + EncTable(Host, []);
  }

  lemma HeadStep(done: seq<Name>, n: Name, attrs: Attrs, start: nat)
    requires start + |Values(done + [n], attrs)| <= ATTR_MAX_SIZE
    ensures start + |Values(done, attrs)| <= ATTR_MAX_SIZE
    ensures HeadOf(done + [n], attrs, start) ==
            HeadOf(done, attrs, start) + EncEntry(Host, Place(n, attrs, start + |Values(done, attrs)|))
  {
    hide Values, Layout, EncTable, EncEntry;
    LayoutStep(done, n, attrs, start);
    TableStep(Layout(done, attrs, start), Place(n, attrs, start + |Values(done, attrs)|));
  }

  lemma HeadLength(done: seq<Name>, attrs: Attrs, start: nat)
    requires start + |Values(done, attrs)| <= ATTR_MAX_SIZE
    ensures |HeadOf(done, attrs, start)| == TableSize(done)
  {
    EncTableLength(Host, Layout(done, attrs, start), done);
  }

  lemma BlankLength(ns: seq<Name>)
    ensures |EncTable(Host, Blank(ns))| == TableSize(ns)
  {
    EncTableLength(Host, Blank(ns), ns);
  }

  lemma {:induction false} TableSizeAppend(a: seq<Name>, b: seq<Name>)
    ensures TableSize(a + b) == TableSize(a) + TableSize(b)
  {
    if b == [] {
      assert a + b == a;
    } else {
      var init := b[..|b| - 1];
      assert (a + b)[..|a + b| - 1] == a + init;
      TableSizeAppend(a, init);
    }
  }

  /** The value bytes at the end of the used area. */
  method PutData(area: array<byte>, at: nat, v: seq<byte>, ghost p: seq<byte>, ghost room: nat)
    requires |p| == at && |v| <= room && area[..] == p + Zeros(room)
    modifies area
    ensures area[..] == p + v + Zeros(room - |v|)
  {
    SpliceZeros(p, room, v);
    PutBytes(area, at, v);
  }

  lemma Regroup(h: seq<byte>, b: seq<byte>, r: seq<byte>, v: seq<byte>, z: seq<byte>)
    ensures h + (b + r + v + z) == h + b + (r + v + z)
    ensures h + b + (r + v + z) == h + b + r + v + z
  {}

  lemma Regroup2(h: seq<byte>, r: seq<byte>, v: seq<byte>, w: seq<byte>, z: seq<byte>)
    ensures h + r + v + w + z == h + (r + (v + w) + z)
  {}

  /** A value: its place into the entry at `at`, its bytes to `dataAt`. */
  method StoreValue(area: array<byte>, at: nat, dataAt: nat, offset: u32, v: seq<byte>,
                    ghost head: seq<byte>, ghost name: Name, ghost rest: seq<byte>, ghost vals: seq<byte>,
                    ghost room: nat)
    requires |head| == at && |v| <= room && |v| < 0x1_0000_0000
    requires dataAt == at + SizeOf(name) + |rest| + |vals|
    requires area[..] == head + EncEntry(Host, Entry(0, 0, name)) + (rest + vals + Zeros(room))
    modifies area
    ensures area[..] == head + EncEntry(Host, Entry(offset, |v|, name)) + (rest + (vals + v) + Zeros(room - |v|))
  {
    PutPlace(area, at, offset, |v|, head, name, rest + vals + Zeros(room));
    ghost var e := EncEntry(Host, Entry(offset, |v|, name));
    Regroup(head, e, rest, vals, Zeros(room));
    PutData(area, dataAt, v, head + e + rest + vals, room);
    Regroup2(head + e, rest, vals, v, Zeros(room - |v|));
  }

  lemma BeforeValue(area: seq<byte>, done: seq<Name>, name: Name, todo: seq<Name>, attrs: Attrs, start: nat)
    requires HoldsValues(area, done, [name] + todo, attrs, start)
    ensures |area| == AREA_SIZE && start + |Values(done, attrs)| <= ATTR_MAX_SIZE
    ensures |HeadOf(done, attrs, start)| == TableSize(done)
    ensures area == HeadOf(done, attrs, start) + EncEntry(Host, Entry(0, 0, name)) +
                    (EncTable(Host, Blank(todo)) + Values(done, attrs) +
                      Zeros(ATTR_MAX_SIZE - start - |Values(done, attrs)|))
  {
    hide Values, Blank, EncTable, EncEntry, HeadOf, TableSize;
    HeadLength(done, attrs, start);
    BlankSplit(name, todo);
    Regroup(HeadOf(done, attrs, start), EncEntry(Host, Entry(0, 0, name)), EncTable(Host, Blank(todo)),
      Values(done, attrs),
            Zeros(ATTR_MAX_SIZE - start - |Values(done, attrs)|));
  }

  lemma SkipValue(area: seq<byte>, done: seq<Name>, name: Name, todo: seq<Name>, attrs: Attrs, start: nat)
    requires HoldsValues(area, done, [name] + todo, attrs, start) && !Kept(Value(attrs, name))
    ensures HoldsValues(area, done + [name], todo, attrs, start)
  {
    hide HoldsValues, HeadOf, Values, EncTable, EncEntry, TableSize, Blank, Zeros;
    ValuesStep(done, name, attrs);
    BeforeValue(area, done, name, todo, attrs, start);
    NowHolds(area, done, name, todo, attrs, start, EncEntry(Host, Entry(0, 0, name)), Values(done, attrs),
             Zeros(ATTR_MAX_SIZE - start - |Values(done, attrs)|));
  }

  method PutKept(area: array<byte>, at: nat, start: nat, length: nat, name: Name, v: seq<byte>,
                 ghost done: seq<Name>, ghost todo: seq<Name>, ghost attrs: Attrs)
    requires HoldsValues(area[..], done, [name] + todo, attrs, start) && v == Value(attrs, name) && Kept(v)
    requires at == TableSize(done) && length == |Values(done, attrs)|
    requires start == DataStart(done + ([name] + todo)) && start + length + |v| <= ATTR_MAX_SIZE
    modifies area
    ensures HoldsValues(area[..], done + [name], todo, attrs, start)
  {
    hide HoldsValues, HeadOf, Values, EncTable, EncEntry, TableSize, Blank, Zeros;
    BeforeValue(area[..], done, name, todo, attrs, start);
    ghost var head, rest := HeadOf(done, attrs, start), EncTable(Host, Blank(todo));
    ghost var vals, room := Values(done, attrs), ATTR_MAX_SIZE - start - length;
    DataPlace(done, name, todo, attrs, start);
    ValuesStep(done, name, attrs);
    ghost var e, vals' := EncEntry(Host, Place(name, attrs, start + length)), Values(done + [name], attrs);
    StoreValue(area, at, start - AT_TABLE + length, start + length, v, head, name, rest, vals, room);
    assert area[..] == head + e + (rest + vals' + Zeros(room - |v|));
    NowHolds(area[..], done, name, todo, attrs, start, e, vals', Zeros(room - |v|));
  }

  /**
   One name of the second pass: its entry is completed and its value copied behind the others. A value that does not fit
   the buffer is not copied, but counted; `HoldsValues` is about values that all fit.
   */
  method PutValue(area: array<byte>, at: nat, start: nat, length: nat, error: int, name: Name, attrs: Attrs,
                  ghost done: seq<Name>, ghost todo: seq<Name>)
    returns (next: nat, length': nat, error': int)
    requires area.Length == AREA_SIZE
    requires at == TableSize(done) && at + SizeOf(name) <= AREA_SIZE && length == |Values(done, attrs)|
    requires start == DataStart(done + ([name] + todo)) && start + length + XATTR_MAXATTRLEN < 0x1_0000_0000
    requires error == if start + length <= ATTR_MAX_SIZE then 0 else 1
    requires error == 0 ==> HoldsValues(area[..], done, [name] + todo, attrs, start)
    modifies area
    ensures next == TableSize(done + [name]) && length' == |Values(done + [name], attrs)|
    ensures error' == if start + length' <= ATTR_MAX_SIZE then 0 else 1
    ensures error' == 0 ==> HoldsValues(area[..], done + [name], todo, attrs, start)
  {
    hide HoldsValues, TableSize, Values, DataStart;
    var v := Value(attrs, name);
    ValuesStep(done, name, attrs);
    TableSizeStep(done, name);
    next, length', error' := at + EntryLength(|name| + 1), length, error;
    if 0 < |v| <= XATTR_MAXATTRLEN {
      length' := length + |v|;
      if start + length' > ATTR_MAX_SIZE {
        Put32(area, at + 4, |v|);
        Put32(area, at, start + length);
        error' := 1;
      } else {
        PutKept(area, at, start, length, name, v, done, todo, attrs);
      }
    } else if error == 0 {
      SkipValue(area[..], done, name, todo, attrs, start);
    }
  }

  lemma NowHolds(area: seq<byte>, done: seq<Name>, name: Name, todo: seq<Name>, attrs: Attrs, start: nat,
                 e: seq<byte>, vals: seq<byte>, zeros: seq<byte>)
    requires |area| == AREA_SIZE && start + |Values(done + [name], attrs)| <= ATTR_MAX_SIZE
    requires start + |Values(done, attrs)| <= ATTR_MAX_SIZE
    requires e == EncEntry(Host, Place(name, attrs, start + |Values(done, attrs)|))
    requires vals == Values(done + [name], attrs)
    requires zeros == Zeros(ATTR_MAX_SIZE - start - |vals|)
    requires area == HeadOf(done, attrs, start) + e + (EncTable(Host, Blank(todo)) + vals + zeros)
    ensures HoldsValues(area, done + [name], todo, attrs, start)
  {
    HeadStep(done, name, attrs, start);
  }

  lemma BlankSplit(name: Name, todo: seq<Name>)
    ensures EncTable(Host, Blank([name] + todo)) == EncEntry(Host, Entry(0, 0, name)) + EncTable(Host, Blank(todo))
  {
    var b := Blank([name] + todo);
    assert b[0] == Entry(0, 0, name) && b[1..] == Blank(todo);
  }

  lemma DataPlace(done: seq<Name>, name: Name, todo: seq<Name>, attrs: Attrs, start: nat)
    requires start == DataStart(done + ([name] + todo)) && start + |Values(done, attrs)| <= ATTR_MAX_SIZE
    ensures start - AT_TABLE == |HeadOf(done, attrs, start)| + SizeOf(name) + |EncTable(Host, Blank(todo))|
  {
    HeadLength(done, attrs, start);
    BlankLength(todo);
    TableSizeAppend(done, [name] + todo);
    TableSizeAppend([name], todo);
    assert [name][..0] == [];
    TableSizeStep([], name);
    assert [] + [name] == [name];
  }

  /** fgetxattr of the Finder info into its 32 bytes of the header: a longer value is refused. */
  function ReadFinderInfo(finfo: seq<byte>, v: seq<byte>): seq<byte> {
    if |v| <= FINFO_SIZE && |finfo| == FINFO_SIZE then v + finfo[|v|..] else finfo
  }

  lemma NextOrdinary(listed: seq<Name>, i: nat, done: seq<Name>, todo: seq<Name>, attrs: Attrs)
    requires i < |listed| && !IsFork(listed[i])
    requires done == Ordinary(listed[..i]) && Ordinary(listed) == done + todo
    ensures todo != [] && todo == [listed[i]] + todo[1..]
    ensures Ordinary(listed[..i + 1]) == done + [listed[i]]
    ensures Ordinary(listed) == done + [listed[i]] + todo[1..]
    ensures |Values(done + [listed[i]], attrs)| <= |Values(Ordinary(listed), attrs)|
  {
    hide Values, Ordinary;
    OrdinaryStep(listed, i);
    OrdinaryPrefix(listed, i + 1);
    PrefixSplit(done, listed[i], todo);
    ValuesPrefix(done + todo, attrs, |done| + 1);
  }

  lemma PrefixSplit(done: seq<Name>, n: Name, todo: seq<Name>)
    requires done + [n] <= done + todo
    ensures todo != [] && todo == [n] + todo[1..] && (done + todo)[..|done| + 1] == done + [n]
    ensures done + todo == done + [n] + todo[1..]
  {
    assert (done + todo)[|done|] == (done + [n])[|done|];
  }

  lemma ForkStep(src: Source, listed: seq<Name>, i: nat)
    requires i < |listed|
    ensures FinderInfo(src, listed[..i + 1]) ==
            if listed[i] == FINDERINFO_NAME
            then ReadFinderInfo(FinderInfo(src, listed[..i]), Value(src.attrs, FINDERINFO_NAME))
            else FinderInfo(src, listed[..i])
    ensures RESOURCEFORK_NAME in listed[..i + 1] <==> RESOURCEFORK_NAME in listed[..i] || listed[i] == RESOURCEFORK_NAME
    ensures IsFork(listed[i]) ==> Ordinary(listed[..i + 1]) == Ordinary(listed[..i])
  {
    hide Ordinary, Value, Zeros;
    assert listed[..i + 1] == listed[..i] + [listed[i]];
    OrdinaryStep(listed, i);
    var v := Value(src.attrs, FINDERINFO_NAME);
    if |v| <= FINFO_SIZE {
      ReadAgain(v);
    }
  }

  lemma ReadAgain(v: seq<byte>)
    requires |v| <= FINFO_SIZE
    ensures v + Zeros(FINFO_SIZE)[|v|..] == v + Zeros(FINFO_SIZE - |v|)
    ensures v + (v + Zeros(FINFO_SIZE - |v|))[|v|..] == v + Zeros(FINFO_SIZE - |v|)
  {}

  /** What is counted stays far below 2^32. */
  lemma {:induction false} ValuesBound(ns: seq<Name>, attrs: Attrs)
    ensures |Values(ns, attrs)| <= XATTR_MAXATTRLEN * |ns|
  {
    if ns != [] {
      ValuesBound(ns[..|ns| - 1], attrs);
    }
  }

  lemma CountsFit(ns: seq<Name>, attrs: Attrs)
    requires TableInBuffer(ns)
    ensures DataStart(ns) + |Values(ns, attrs)| + XATTR_MAXATTRLEN < 0x1_0000_0000 && |ns| < 0x1_0000
  {
    ValuesBound(ns, attrs);
  }

  lemma EntryInArea(ns: seq<Name>, done: seq<Name>, name: Name, todo: seq<Name>)
    requires TableInBuffer(ns) && ns == done + [name] + todo
    ensures TableSize(done) + SizeOf(name) <= AREA_SIZE
  {
    TableSizePrefix(ns, |done| + 1);
    assert ns[..|done| + 1] == done + [name];
    TableSizeStep(done, name);
  }

  /**
   The second pass over the names: values, Finder info, and whether there is a resource fork. Values that do not fit the
   buffer set `error` to 1 and are counted all the same.
   */
  method CollectValues(area: array<byte>, src: Source, listed: seq<Name>, start: nat)
    returns (error: int, length: nat, finfo: seq<byte>, hasRsrc: bool)
    requires area.Length == AREA_SIZE && start == DataStart(Ordinary(listed)) && TableInBuffer(Ordinary(listed))
    requires HoldsNames(area[..], Ordinary(listed), start - AT_TABLE)
    modifies area
    ensures length == |Values(Ordinary(listed), src.attrs)|
    ensures error == if DataInBuffer(Ordinary(listed), src.attrs) then 0 else 1
    ensures error == 0 ==> HoldsValues(area[..], Ordinary(listed), [], src.attrs, start)
    ensures finfo == FinderInfo(src, listed) && (hasRsrc <==> RESOURCEFORK_NAME in listed)
  {
    hide HoldsValues, EncTable, Blank, HoldsNames, Values, TableSize, Ordinary, FinderInfo, ReadFinderInfo,
        TableInBuffer, DataStart;
    error, length, finfo, hasRsrc := 0, 0, Zeros(FINFO_SIZE), false;
    var at: nat := 0;
    ghost var done, todo: seq<Name> := [], Ordinary(listed);
    CountsFit(Ordinary(listed), src.attrs);
    StartsInBuffer(Ordinary(listed));
    NothingYet(src);
    NothingDone(area[..], todo, src.attrs, start);
    assert listed[..0] == [] && todo == done + todo;
    for i := 0 to |listed|
      invariant done == Ordinary(listed[..i]) && Ordinary(listed) == done + todo
      invariant error == if start + length <= ATTR_MAX_SIZE then 0 else 1
      invariant error == 0 ==> HoldsValues(area[..], done, todo, src.attrs, start)
      invariant at == TableSize(done) && length == |Values(done, src.attrs)|
      invariant finfo == FinderInfo(src, listed[..i]) && (hasRsrc <==> RESOURCEFORK_NAME in listed[..i])
    {
      var name := listed[i];
      ForkStep(src, listed, i);
      if name == FINDERINFO_NAME {
        finfo := ReadFinderInfo(finfo, Value(src.attrs, name));
      } else if name == RESOURCEFORK_NAME {
        hasRsrc := true;
      } else {
        NextOrdinary(listed, i, done, todo, src.attrs);
        EntryInArea(Ordinary(listed), done, name, todo[1..]);
        ValuesStep(done, name, src.attrs);
        at, length, error := PutValue(area, at, start, length, error, name, src.attrs, done, todo[1..]);
        done, todo := done + [name], todo[1..];
      }
    }
    assert listed[..|listed|] == listed;
  }

  lemma StartsInBuffer(ns: seq<Name>)
    requires TableInBuffer(ns)
    ensures DataStart(ns) < ATTR_MAX_SIZE
  {}

  lemma NothingYet(src: Source)
    ensures Values([], src.attrs) == [] && TableSize([]) == 0 && Ordinary([]) == [] &&
            FinderInfo(src, []) == Zeros(FINFO_SIZE)
  {}

  lemma NothingDone(area: seq<byte>, ns: seq<Name>, attrs: Attrs, start: nat)
    requires |area| == AREA_SIZE && start == DataStart(ns) < ATTR_MAX_SIZE
    requires HoldsNames(area, ns, start - AT_TABLE)
    ensures HoldsValues(area, [], ns, attrs, start)
  {
    assert HeadOf([], attrs, start) == [];
    assert EncTable(Host, Blank(ns)) + [] == EncTable(Host, Blank(ns));
  }

  // ---- Writing the file ----

  /** pwrite. */
  function PWrite(file: seq<byte>, data: seq<byte>, offset: nat): (r: seq<byte>) {
    var f := if |file| < offset then file + Zeros(offset - |file|) else file;
    f[..offset] + data + if offset + |data| < |f| then f[offset + |data|..] else []
  }

  /** The header as the host holds it, the Finder info and the padding, then the area. */
  function Image(h: Header, finfo: seq<byte>, area: seq<byte>): (s: seq<byte>) {
    EncAd(Host, h) + (finfo + [0, 0] + EncAt(Host, h) + area)
  }

  function Swapped(h: Header, finfo: seq<byte>, es: seq<Entry>, x: seq<byte>): (s: seq<byte>) {
    EncAd(Big, h) + finfo + [0, 0] + EncAt(Big, h) + (EncTable(Big, es) + x)
  }

  lemma SwapImage(h: Header, finfo: seq<byte>, es: seq<Entry>, x: seq<byte>)
    requires |finfo| == FINFO_SIZE && h.numAttrs == |es|
    ensures var s := Image(h, finfo, EncTable(Host, es) + x);
            AdFits(s) && AttrFits(SwapAd(s)) && SwapAttr(SwapAd(s)) == Swapped(h, finfo, es, x)
  {
    hide EncAd, EncAt, EncTable, SwapAd, SwapAttr, AdFits, AttrFits;
    var rest := finfo + [0, 0] + EncAt(Host, h) + (EncTable(Host, es) + x);
    SwapAdImage(Host, h, rest);
    var a := EncAd(Big, h) + finfo + [0, 0];
    assert EncAd(Big, h) + rest == a + EncAt(Host, h) + (EncTable(Host, es) + x);
    SwapAttrImage(Host, a, h, es, x);
  }

  /** The two swaps on the whole buffer, then its first `end` bytes. */
  method SwapBuffer(h: Header, finfo: seq<byte>, area: array<byte>, ghost es: seq<Entry>, ghost x: seq<byte>)
    returns (image: array<byte>)
    requires |finfo| == FINFO_SIZE && h.numAttrs == |es| && area[..] == EncTable(Host, es) + x
    ensures image[..] == Swapped(h, finfo, es, x)
  {
    hide SwapAd, SwapAttr, AdFits, AttrFits, EncTable, Swapped;
    var bytes := Image(h, finfo, area[..]);
    SwapImage(h, finfo, es, x);
    image := new byte[|bytes|](k requires 0 <= k < |bytes| => bytes[k]);
    assert image[..] == bytes;
    SwapAdhdr(image);
    var inside := SwapAttrhdr(image);
  }

  lemma WriteBoth(front: seq<byte>, rsrc: seq<byte>)
    ensures PWrite(PWrite([], rsrc, |front|), front, 0) == front + rsrc
    ensures PWrite([], front, 0) == front
  {}

  lemma Cut(p: seq<byte>, q: seq<byte>)
    ensures (p + q)[..|p|] == p
  {}

  /** The part of the swapped buffer that is written is the packed file without the resource fork. */
  lemma SwappedFront(src: Source, room: nat)
    requires Packable(src)
    ensures var ns, h := Ordinary(Listed(src)), PackHeader(src);
            var s := Swapped(h, FinderInfo(src, Listed(src)), Layout(ns, src.attrs, DataStart(ns)),
              Values(ns, src.attrs) + Zeros(room));
            HeaderEnd(src) <= |s| && PackFile(src) == s[..HeaderEnd(src)] + Rsrc(src, Listed(src))
  {
    hide EncAd, EncAt, Values, Layout, Ordinary, Listed, EncTable, TableSize;
    var listed := Listed(src);
    var ns, h := Ordinary(listed), PackHeader(src);
    var es, vals := Layout(ns, src.attrs, DataStart(ns)), Values(ns, src.attrs);
    EncTableLength(Big, es, ns);
    var front := EncAd(Big, h) + FinderInfo(src, listed);
    var table := EncTable(Big, es);
    if |vals| > 0 {
      var body := front + [0, 0] + EncAt(Big, h) + table + vals;
      SwappedRegroup(front + [0, 0] + EncAt(Big, h), table, vals, Zeros(room));
      Cut(body, Zeros(room));
    } else {
      var rest := [0, 0] + EncAt(Big, h) + (table + (vals + Zeros(room)));
      assert Swapped(h, FinderInfo(src, listed), es, vals + Zeros(room)) == front + rest;
      Cut(front, rest);
    }
  }

  lemma SwappedRegroup(a: seq<byte>, t: seq<byte>, v: seq<byte>, z: seq<byte>)
    ensures a + (t + (v + z)) == a + t + v + z
  {}

  /** The header fields that depend on whether there are values. */
  method SetEnd(h0: Header, start: nat, length: nat) returns (h: Header)
    requires start + length < 0x1_0000_0000 && h0.rsrcOffset == PAD_OFFSET && h0.finfoLength == FINFO_SIZE &&
             h0.totalSize == 0
    requires AT_TABLE <= start
    ensures var end := if length > 0 then start + length else PAD_OFFSET;
            h == h0.(rsrcOffset := end, finfoLength := end - FINFO_OFFSET, totalSize := if length > 0 then end else 0)
  {
    h := h0;
    if length > 0 {
      h := h.(rsrcOffset := start + length);
      h := h.(finfoLength := h.rsrcOffset - FINFO_OFFSET);
      h := h.(totalSize := h.rsrcOffset);
    }
  }

  /** Whether the names go into the buffer, and what is then written of it to the file, if anything, lies in it. */
  ghost predicate WritesInside(src: Source) {
    var ns := Ordinary(Listed(src));
    NamesInside(ns) && (TableInBuffer(ns) && |Rsrc(src, Listed(src))| <= INT_MAX ==> DataInBuffer(ns, src.attrs))
  }

  /** What copyfile_pack returns: a resource fork resets the error of values that do not fit. */
  function PackError(src: Source): int {
    var ns := Ordinary(Listed(src));
    if !TableInBuffer(ns) || |Rsrc(src, Listed(src))| > INT_MAX then -1
    else if !DataInBuffer(ns, src.attrs) && RESOURCEFORK_NAME !in Listed(src) then 1
    else 0
  }

  /**
   copyfile_pack with COPYFILE_XATTR, for a file without ACL and quarantine information, writing to
   a destination that was just truncated. `inside` tells whether what is written of the buffer lies in it; the model
   stops if it does not.
   */
  method Pack(src: Source) returns (inside: bool, error: int, file: seq<byte>)
    requires ValidSource(src) && SECURITY_NAME !in src.attrs
    ensures inside <==> WritesInside(src)
    ensures error == PackError(src)
    ensures inside && error == 0 <==> Packable(src)
    ensures inside ==> file == if error == 0 then PackFile(src) else []
  {
    hide Ordinary, Listed, HoldsNames, HoldsValues, Values, Layout, PackFile, Swapped, PWrite, EncTable, ValidSource,
        HeadOf, Blank,
        TableInBuffer, NamesInside;
    file := [];
    var area := new byte[AREA_SIZE](_ => 0);
    assert area[..] == Zeros(AREA_SIZE);
    var listed := Listed(src);
    var inTable, num, start;
    inside, inTable, num, start := CollectNames(area, listed);
    if !inside || !inTable {
      return inside, -1, file;
    }
    var length: nat, finfo: seq<byte>, hasRsrc: bool;
    error, length, finfo, hasRsrc := CollectValues(area, src, listed, start);
    ghost var ns := Ordinary(listed);
    CountsFit(ns, src.attrs);
    StartsInBuffer(ns);
    var h := SetEnd(Header(FINFO_SIZE, PAD_OFFSET, 0, src.inode, 0, start, length, num), start, length);
    var fits := error == 0;
    if hasRsrc {
      var rsrc := Value(src.attrs, RESOURCEFORK_NAME);
      if |rsrc| > INT_MAX {
        return true, -1, file;
      }
      file := PWrite(file, rsrc, h.rsrcOffset);
      h := h.(rsrcLength := |rsrc|);
      error := 0;
    }
    if h.rsrcOffset > ATTR_MAX_SIZE {
      return false, error, file;
    }
    assert fits;
    ghost var room := ATTR_MAX_SIZE - start - length;
    ValuesHeld(area[..], ns, src.attrs, start);
    assert h == PackHeader(src);
    var image := SwapBuffer(h, finfo, area, Layout(ns, src.attrs, start), Values(ns, src.attrs) + Zeros(room));
    SwappedFront(src, room);
    WriteBoth(image[..][..h.rsrcOffset], Rsrc(src, listed));
    assert image[..][..h.rsrcOffset] + [] == image[..][..h.rsrcOffset];
    file := PWrite(file, image[..h.rsrcOffset], 0);
    inside := true;
  }

  lemma ValuesHeld(area: seq<byte>, ns: seq<Name>, attrs: Attrs, start: nat)
    requires HoldsValues(area, ns, [], attrs, start)
    ensures start + |Values(ns, attrs)| <= ATTR_MAX_SIZE
    ensures area == EncTable(Host, Layout(ns, attrs, start)) +
                    (Values(ns, attrs) + Zeros(ATTR_MAX_SIZE - start - |Values(ns, attrs)|))
  {
    hide Values, Layout;
    assert EncTable(Host, Blank([])) == [];
    assert [] + Values(ns, attrs) == Values(ns, attrs);
  }

  // ---- Names and values that do not fit ----

  lemma ShortEntry(n: Name)
    requires |n| <= 2
    ensures SizeOf(n) == 16
  {}

  lemma {:induction false} ShortNames(ns: seq<Name>, k: nat)
    requires k <= 2 && forall i | 0 <= i < |ns| :: |ns[i]| == k
    ensures TableSize(ns) == 16 * |ns| && NamesLength(ns) == (if k == 1 then 2 * |ns| else 3 * |ns|) &&
            Ordinary(ns) == ns
    decreases |ns|
  {
    if ns != [] {
      ShortNames(ns[..|ns| - 1], k);
      hide SizeOf;
      ShortEntry(ns[|ns| - 1]);
      assert |FINDERINFO_NAME| == 20 && |RESOURCEFORK_NAME| == 22;
    }
  }

  lemma {:induction false} FullValues(ns: seq<Name>, attrs: Attrs)
    requires forall i | 0 <= i < |ns| :: |Value(attrs, ns[i])| == XATTR_MAXATTRLEN
    ensures |Values(ns, attrs)| == XATTR_MAXATTRLEN * |ns|
    decreases |ns|
  {
    if ns != [] {
      FullValues(ns[..|ns| - 1], attrs);
    }
  }

  /** `n` attributes with names of one byte and values of 4096. */
  function Full(n: nat): Source
    requires n < 0xff
  {
    var names: seq<Name> := seq(n, i requires 0 <= i < n => [i + 1]);
    Source(names, map k: seq<byte> | k in names :: Zeros(XATTR_MAXATTRLEN), 1)
  }

  lemma FullIs(n: nat)
    requires n < 0xff
    ensures ValidSource(Full(n)) && |Full(n).names| == n
    ensures forall i | 0 <= i < n ::
              Full(n).names[i] == [i + 1] && |Value(Full(n).attrs, Full(n).names[i])| == XATTR_MAXATTRLEN
    ensures forall k | k in Full(n).attrs :: |k| == 1
  {
    var src := Full(n);
    forall i, j | 0 <= i < j < n
      ensures src.names[i] != src.names[j]
    {
      assert src.names[i][0] == i + 1 && src.names[j][0] == j + 1;
    }
  }

  /** Thirty-three values of the largest size: what is written of the buffer ends behind it, and the error is 1. */
  lemma TooManyValues()
    ensures var src := Full(33);
            ValidSource(src) && SECURITY_NAME !in src.attrs && !WritesInside(src) && PackError(src) == 1
  {
    hide Full, Values, TableSize, Ordinary, NamesLength, Value, ValidSource;
    var src := Full(33);
    FullIs(33);
    ShortNames(src.names, 1);
    FullValues(src.names, src.attrs);
    assert |SECURITY_NAME| == 18;
    assert RESOURCEFORK_NAME !in src.names by {
      assert |RESOURCEFORK_NAME| == 22;
    }
  }

  /** `n` attributes without values, with names of two bytes. */
  function Many(n: nat): Source
    requires n < 255 * 255
  {
    var names: seq<Name> := seq(n, i requires 0 <= i < n => [i / 255 + 1, i % 255 + 1]);
    Source(names, map k: seq<byte> | k in names :: [], 1)
  }

  lemma ManyIs(n: nat)
    requires n < 255 * 255
    ensures ValidSource(Many(n)) && |Many(n).names| == n
    ensures forall i | 0 <= i < n :: |Many(n).names[i]| == 2
    ensures forall k | k in Many(n).attrs :: |k| == 2
  {
    var src := Many(n);
    forall i, j | 0 <= i < j < n
      ensures src.names[i] != src.names[j]
    {
      assert src.names[i][0] == i / 255 + 1 && src.names[j][0] == j / 255 + 1;
      assert src.names[i][1] == i % 255 + 1 && src.names[j][1] == j % 255 + 1;
    }
  }

  /** With 8185 names of two bytes the last entry starts in the buffer, and is written behind its end. */
  lemma TooManyNames()
    ensures var src := Many(8185);
            && ValidSource(src) && SECURITY_NAME !in src.attrs && NamesLength(src.names) == 24555
            && TableInBuffer(src.names[..8184]) && !NamesInside(src.names) && Ordinary(Listed(src)) == src.names
            && !WritesInside(src) && PackError(src) == -1
  {
    hide Many, Values, TableSize, Ordinary, NamesLength, Value, ValidSource, NamesInside;
    var src := Many(8185);
    ManyIs(8185);
    assert |SECURITY_NAME| == 18;
    ShortNames(src.names, 2);
    ShortNames(src.names[..8184], 2);
    assert src.names[..8185] == src.names;
    NamesInsideExactly(src.names, 8184);
  }
}
