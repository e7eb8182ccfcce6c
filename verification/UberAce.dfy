/** The access control list of a copy's destination, and the temporary entry (the uberace) that makes it writable. */
module UberAce {
  import opened Wrappers

  /** The five permissions of the uberace: write data, attributes, extended attributes and security, and append. */
  const UBER_PERMS: set<string> := {"write", "writeattr", "writeextattr", "append", "writesecurity"}

  datatype Ace = Ace(allow: bool, who: int, perms: set<string>, inherited: bool)

  /** A file's list, if it has one. */
  type Acl = Option<seq<Ace>>

  /** What add_uberace puts in front. */
  function Uber(uid: int): Ace {
    Ace(true, uid, UBER_PERMS, false)
  }

  /** is_uberace, for the effective user. */
  predicate IsUber(e: Ace, euid: int) {
    e.allow && e.who == euid && e.perms == UBER_PERMS
  }

  function Inherited(l: seq<Ace>): seq<Ace> {
    if l == [] then [] else Inherited(l[..|l| - 1]) + if l[|l| - 1].inherited then [l[|l| - 1]] else []
  }

  function Own(l: seq<Ace>): seq<Ace> {
    if l == [] then [] else Own(l[..|l| - 1]) + if l[|l| - 1].inherited then [] else [l[|l| - 1]]
  }

  lemma FilteredOne(e: Ace)
    ensures Own([e]) == (if e.inherited then [] else [e]) && Inherited([e]) == (if e.inherited then [e] else [])
    ensures Own([]) == [] == Inherited([])
  {
    assert [e][..0] == [];
  }

  /** Own and inherited entries keep their order, and each list's come from that list. */
  lemma {:induction false} FilteredBoth(l: seq<Ace>, m: seq<Ace>)
    ensures Own(l + m) == Own(l) + Own(m) && Inherited(l + m) == Inherited(l) + Inherited(m)
    decreases |m|
  {
    var init := m[..if m == [] then 0 else |m| - 1];
    if m == [] {
      assert l + m == l;
    } else {
      assert (l + m)[..|l + m| - 1] == l + init;
      FilteredBoth(l, init);
    }
  }

  /** No own entry is inherited, all others are, and every entry is one or the other. */
  lemma {:induction false} Filtered(l: seq<Ace>)
    ensures forall e :: e in Own(l) <==> e in l && !e.inherited
    ensures forall e :: e in Inherited(l) <==> e in l && e.inherited
    ensures |Own(l)| + |Inherited(l)| == |l|
    decreases |l|
  {
    if l != [] {
      Filtered(l[..|l| - 1]);
      assert l == l[..|l| - 1] + [l[|l| - 1]];
    }
  }

  /** The list without its first entry, if that is the uberace. */
  function Removed(a: Acl, euid: int): Acl {
    if a.Some? && a.value != [] && IsUber(a.value[0], euid) then Some(a.value[1..]) else a
  }

  /** What is left of the destination's list: a leading uberace and the inherited entries. */
  function Kept(l: seq<Ace>, euid: int): seq<Ace> {
    if l != [] && IsUber(l[0], euid) then [l[0]] + Inherited(l[1..]) else Inherited(l)
  }

  predicate Leads(a: Acl, euid: int) {
    a.Some? && a.value != [] && IsUber(a.value[0], euid)
  }

  function Secured(dst: Acl, src: Acl, delay: bool, ruid: int, euid: int): Acl {
    if dst == None && src == None then None
    else
      var kept := if dst.Some? then Kept(dst.value, euid) else [];
      var merged := kept + if src.Some? then Own(src.value) else [];
      Some(if delay && !Leads(dst, euid) then [Uber(ruid)] + merged else merged)
  }

  /** The destination when the copy starts: a file that is there (and may have its permissions fixed), or a new one. */
  datatype Target = Existing(acl: Acl, fixable: bool) | Created(acl: Acl)

  /**
   One call of copyfile(), as far as the destination's list goes; `delay` is cfDelayAce, set for directories in a
   tree.
   */
  class Copier {
    var dst: Acl
    const src: Acl
    const acl: bool
    const delay: bool
    const ruid: int
    const euid: int

    constructor (dst: Acl, src: Acl, acl: bool, delay: bool, ruid: int, euid: int)
      ensures this.dst == dst && this.src == src && this.acl == acl && this.delay == delay
      ensures this.ruid == ruid && this.euid == euid
    {
      this.dst, this.src, this.acl, this.delay, this.ruid, this.euid := dst, src, acl, delay, ruid, euid;
    }

    /** copyfile_fix_perms and chmodx_np: only a list that is there gets the entry. */
    method FixPerms()
      modifies this
      ensures dst == if old(dst).Some? then Some([Uber(ruid)] + old(dst).value) else None
    {
      if dst.Some? {
        dst := Some([Uber(ruid)] + dst.value);
      }
    }

    /** The first loop of copyfile_security, over the destination's entries. */
    method KeepEntries(l: seq<Ace>) returns (tmp: seq<Ace>, hasUberace: bool)
      ensures tmp == Kept(l, euid) && hasUberace == Leads(Some(l), euid)
    {
      hide Kept, IsUber;
      var i := 0;
      tmp, hasUberace := [], false;
      NothingKept(euid);
      while i < |l|
        invariant 0 <= i <= |l|
        invariant hasUberace == (i > 0 && IsUber(l[0], euid)) && tmp == Kept(l[..i], euid)
      {
        KeptStep(l, i, euid);
        if i == 0 && IsUber(l[0], euid) {
          tmp := tmp + [l[0]];
          hasUberace := true;
        } else if l[i].inherited {
          tmp := tmp + [l[i]];
        }
        i := i + 1;
      }
      assert l[..i] == l;
    }

    /** The second loop, over the source's entries. */
    method AddEntries(kept: seq<Ace>, l: seq<Ace>) returns (all: seq<Ace>)
      ensures all == kept + Own(l)
    {
      var i := 0;
      all := kept;
      while i < |l|
        invariant 0 <= i <= |l| && all == kept + Own(l[..i])
      {
        assert l[..i + 1][..i] == l[..i];
        if !l[i].inherited {
          all := all + [l[i]];
        }
        i := i + 1;
      }
      assert l[..i] == l;
    }

    /** copyfile_security, with the flag for lists. */
    method Security()
      modifies this
      ensures dst == if acl then Secured(old(dst), src, delay, ruid, euid) else old(dst)
    {
      hide Kept, Own, IsUber;
      if !acl {
        return;
      }
      var hasUberace := false;
      var merged: Acl := None;
      if dst.Some? {
        var tmp: seq<Ace>;
        tmp, hasUberace := KeepEntries(dst.value);
        assert tmp + [] == tmp;
        merged := Some(tmp);
      }
      if src == None && merged == None {
        return;
      }
      if src.Some? {
        var all := AddEntries(if merged.Some? then merged.value else [], src.value);
        merged := Some(all);
      }
      if !hasUberace && delay {
        merged := Some([Uber(ruid)] + merged.value);
      }
      dst := merged;
    }

    /** remove_uberace: at the end of a copy, or at the end of a directory in a tree. */
    method RemoveUberace()
      modifies this
      ensures dst == Removed(old(dst), euid)
    {
      if dst.Some? && dst.value != [] && IsUber(dst.value[0], euid) {
        dst := Some(dst.value[1..]);
      }
    }

    /** reset_security */
    method ResetSecurity()
      modifies this
      ensures dst == if delay then old(dst) else Removed(old(dst), euid)
    {
      if !delay {
        RemoveUberace();
      }
    }

    /** copyfile() when all goes well, and the cleanup of a directory in a tree. */
    method Copy(target: Target)
      modifies this
      ensures dst == Final(target, src, acl, delay, ruid, euid)
    {
      dst := target.acl;
      if target.Existing? && target.fixable {
        FixPerms();
      }
      Security();
      ResetSecurity();
      if delay {
        RemoveUberace();
      }
    }

    /** copyfile() when copying fails at some step: nothing is reset, but a file without all its data is unlinked. */
    method CopyFails(target: Target, at: Failure) returns (unlinked: bool)
      modifies this
      ensures After(target, src, acl, delay, ruid, euid, at) == if unlinked then None else Some(dst)
    {
      dst := target.acl;
      if target.Existing? && target.fixable {
        FixPerms();
      }
      unlinked := at == Data;
      if at == Stat {
        Security();
      }
    }
  }

  /**
   The step that fails, in their order: opening the files, extended attributes, data, security, stat information. The
   caller asks for a failure of the last one, which today's copyfile_stat never reports.
   */
  datatype Failure = Opening | Attributes | Data | Security | Stat

  /** The list of the destination after such a failure, if the file is still there. */
  function After(t: Target, src: Acl, acl: bool, delay: bool, ruid: int, euid: int, at: Failure): Option<Acl> {
    match at
    case Data => None
    case Stat => Some(if acl then Secured(Fixed(t, ruid), src, delay, ruid, euid) else Fixed(t, ruid))
    case _ => Some(Fixed(t, ruid))
  }

  lemma NothingKept(euid: int)
    ensures Kept([], euid) == []
  {}

  lemma KeptStep(l: seq<Ace>, i: nat, euid: int)
    requires i < |l|
    ensures Kept(l[..i + 1], euid)
            == Kept(l[..i], euid) + if (i == 0 && IsUber(l[0], euid)) || l[i].inherited then [l[i]] else []
  {
    assert l[..i + 1][..i] == l[..i];
    if i > 0 && IsUber(l[0], euid) {
      var t := l[..i + 1][1..];
      assert t[..|t| - 1] == l[..i][1..];
    }
  }

  /** The list after the permissions were fixed. */
  function Fixed(t: Target, ruid: int): Acl {
    if t.Existing? && t.fixable && t.acl.Some? then Some([Uber(ruid)] + t.acl.value) else t.acl
  }

  function Final(t: Target, src: Acl, acl: bool, delay: bool, ruid: int, euid: int): Acl {
    var fixed := Fixed(t, ruid);
    Removed(if acl then Secured(fixed, src, delay, ruid, euid) else fixed, euid)
  }

  // ---- The whole copy ----

  /** No entry looks like the uberace. */
  predicate Plain(a: Acl, euid: int) {
    a.Some? ==> forall i | 0 <= i < |a.value| :: !IsUber(a.value[i], euid)
  }

  /** What was asked for: the inherited entries and the source's own ones with the flag, the original list without. */
  function Expected(original: Acl, src: Acl, acl: bool): Acl {
    if !acl then original
    else if original == None && src == None then None
    else Some((if original.Some? then Inherited(original.value) else []) + if src.Some? then Own(src.value) else [])
  }

  /** The permissions of an existing list are fixed. */
  predicate GetsFixed(t: Target) {
    t.Existing? && t.fixable && t.acl.Some?
  }

  /** An uberace is put in place that a differing effective user does not recognise in the end. */
  predicate Left(t: Target, src: Acl, acl: bool, delay: bool) {
    if acl then delay && (t.acl.Some? || src.Some?) else GetsFixed(t)
  }

  lemma {:induction false} PlainFiltered(l: seq<Ace>, euid: int)
    requires Plain(Some(l), euid)
    ensures Plain(Some(Inherited(l)), euid) && Plain(Some(Own(l)), euid)
    decreases |l|
  {
    if l != [] {
      PlainFiltered(l[..|l| - 1], euid);
    }
  }

  /** A list that gets nothing or its own uberace in front is plain again once that is removed. */
  lemma RemovedAgain(l: seq<Ace>, u: int, euid: int)
    requires Plain(Some(l), euid)
    ensures Removed(Some(l), euid) == Some(l)
    ensures Removed(Some([Uber(u)] + l), euid) == Some(if u == euid then l else [Uber(u)] + l)
  {
    assert ([Uber(u)] + l)[1..] == l;
  }

  lemma {:induction false} InheritedCons(e: Ace, l: seq<Ace>)
    requires !e.inherited
    ensures Inherited([e] + l) == Inherited(l)
    decreases |l|
  {
    var all := [e] + l;
    if l == [] {
      assert all[..0] == [];
    } else {
      assert all[..|all| - 1] == [e] + l[..|l| - 1];
      InheritedCons(e, l[..|l| - 1]);
    }
  }

  lemma KeptFixed(l: seq<Ace>, ruid: int, euid: int)
    requires Plain(Some(l), euid)
    ensures Kept([Uber(ruid)] + l, euid) == (if ruid == euid then [Uber(ruid)] else []) + Inherited(l)
    ensures Kept(l, euid) == Inherited(l)
  {
    assert ([Uber(ruid)] + l)[1..] == l;
    InheritedCons(Uber(ruid), l);
  }

  /** With the flag, before the last removal the list is the expected one, with or without an uberace in front. */
  lemma SecuredIs(t: Target, src: Acl, delay: bool, ruid: int, euid: int)
    requires Plain(t.acl, euid) && Plain(src, euid) && (t.acl.Some? || src.Some?)
    ensures var e := Expected(t.acl, src, true).value;
            var uber := (delay || (ruid == euid && Fixed(t, ruid) != t.acl));
            Secured(Fixed(t, ruid), src, delay, ruid, euid) == Some(if uber then [Uber(ruid)] + e else e)
  {
    hide Kept, Inherited, Own;
    var own := if src.Some? then Own(src.value) else [];
    if t.acl.Some? {
      var l := t.acl.value;
      KeptFixed(l, ruid, euid);
      var fixed := Fixed(t, ruid);
      assert |[Uber(ruid)] + l| > |l|;
      assert [Uber(ruid)] + Inherited(l) + own == [Uber(ruid)] + (Inherited(l) + own);
      assert [] + Inherited(l) == Inherited(l);
    }
  }

  /**
   Whatever the destination's list was: after the copy it is the one asked for, with no uberace in it, exactly if the
   real user is the effective one or no uberace had to stay until the end.
   */
  lemma ListsExact(t: Target, src: Acl, acl: bool, delay: bool, ruid: int, euid: int)
    requires Plain(t.acl, euid) && Plain(src, euid)
    ensures Final(t, src, acl, delay, ruid, euid) == Expected(t.acl, src, acl) <==>
            ruid == euid || !Left(t, src, acl, delay)
    ensures ruid == euid ==> Plain(Final(t, src, acl, delay, ruid, euid), euid)
  {
    hide Secured, Removed, Inherited, Own, IsUber;
    if acl && (t.acl.Some? || src.Some?) {
      var e := Expected(t.acl, src, true).value;
      PlainExpected(t.acl, src, euid);
      SecuredIs(t, src, delay, ruid, euid);
      RemovedAgain(e, ruid, euid);
      assert |[Uber(ruid)] + e| > |e|;
    } else if t.acl.Some? {
      RemovedAgain(t.acl.value, ruid, euid);
      assert |[Uber(ruid)] + t.acl.value| > |t.acl.value|;
    } else {
      NoList(src, delay, ruid, euid);
    }
  }

  lemma NoList(src: Acl, delay: bool, ruid: int, euid: int)
    ensures Removed(None, euid) == None && (src == None ==> Secured(None, src, delay, ruid, euid) == None)
  {}

  lemma PlainExpected(dst: Acl, src: Acl, euid: int)
    requires Plain(dst, euid) && Plain(src, euid) && (dst.Some? || src.Some?)
    ensures Plain(Some(Expected(dst, src, true).value), euid)
  {
    hide IsUber;
    if dst.Some? {
      PlainFiltered(dst.value, euid);
    }
    if src.Some? {
      PlainFiltered(src.value, euid);
    }
  }

  /**
   Where an uberace remains when a copy fails: nowhere after the data, since the file is gone; after the security
   information was copied in a directory of a tree, or if the one from the start was recognised; elsewhere if one was
   made.
   */
  lemma FailureLeaves(t: Target, src: Acl, acl: bool, delay: bool, ruid: int, euid: int, at: Failure)
    requires Plain(t.acl, euid) && Plain(src, euid) && Plain(t.acl, ruid) && Plain(src, ruid)
    ensures var a := After(t, src, acl, delay, ruid, euid, at);
            a.Some? && Leads(a.value, ruid) <==>
            match at
            case Data => false
            case Stat =>
              if acl then (delay && (t.acl.Some? || src.Some?)) || (ruid == euid && GetsFixed(t)) else GetsFixed(t)
            case _ => GetsFixed(t)
  {
    hide Secured, Inherited, Own;
    assert t.acl.Some? ==> |[Uber(ruid)] + t.acl.value| > |t.acl.value|;
    if at == Stat && acl {
      if t.acl.Some? || src.Some? {
        SecuredIs(t, src, delay, ruid, euid);
        PlainExpected(t.acl, src, ruid);
      } else {
        NoList(src, delay, ruid, euid);
      }
    }
  }

  /** An empty list, another effective user, and no flag for lists: the uberace is still there at the end. */
  lemma StaysForOthers()
    ensures var t := Existing(Some([]), true);
            Final(t, None, false, false, 1, 2) == Some([Uber(1)]) != Expected(t.acl, None, false)
  {
    assert [Uber(1)] + [] == [Uber(1)];
  }

  /**
   One user: the destination keeps its inherited entry and gets the source's own one, and the uberace, which stood in
   front meanwhile, is gone.
   */
  lemma ListsMerged()
    ensures var x, y := Ace(true, 7, {"read"}, true), Ace(false, 8, {"append"}, false);
            var a, b := Ace(true, 9, {"write"}, false), Ace(true, 7, {"read"}, true);
            && Uber(1) == Ace(true, 1, {"write", "writeattr", "writeextattr", "append", "writesecurity"}, false)
            && Fixed(Existing(Some([x, y]), true), 1) == Some([Uber(1), x, y])
            && Secured(Some([Uber(1), x, y]), Some([a, b]), false, 1, 1) == Some([Uber(1), x, a])
            && Final(Existing(Some([x, y]), true), Some([a, b]), true, false, 1, 1) == Some([x, a])
  {
    hide Own, Inherited;
    var x, y := Ace(true, 7, {"read"}, true), Ace(false, 8, {"append"}, false);
    var a, b := Ace(true, 9, {"write"}, false), Ace(true, 7, {"read"}, true);
    FilteredOne(x);
    FilteredOne(y);
    FilteredOne(a);
    FilteredOne(b);
    FilteredBoth([x], [y]);
    FilteredBoth([a], [b]);
    assert [x] + [y] == [x, y] && [a] + [b] == [a, b] && [x] + [] == [x] && [a] + [] == [a];
    var u := Uber(1);
    assert [u] + [x, y] == [u, x, y] && [u, x, y][1..] == [x, y];
    assert Kept([u, x, y], 1) == [u] + [x];
    assert [u] + [x] + [a] == [u, x, a] && [u, x, a][1..] == [x, a];
  }
}
