/** The _ATCALL sequence run by one thread: save the working directory, change it, act, restore. */
module AtCall {
  import opened Wrappers
  import opened Kernel

  /** The wrapped call, whose effect depends on the directory in which it resolves relative paths. */
  type Call = Dir -> Effect

  /** The working directory that the sequence must give back: the thread's own, or the process's. */
  function Home(v: Version, k: Proc, t: Tid): Option<Dir> {
    match v
    case PerThread => OwnCwd(k, t)
    case ProcessWide => Some(k.cwd)
  }

  class Process {
    var k: Proc
    const t: Tid
    const v: Version

    constructor (k: Proc, t: Tid, v: Version)
      ensures this.k == k && this.t == t && this.v == v
    {
      this.k, this.t, this.v := k, t, v;
    }

    method OpenCwd(a: Answer) returns (r: int)
      modifies this
      ensures Ret(k, r) == OpenDot(old(k), t, a)
    {
      var x := OpenDot(k, t, a);
      k, r := x.k, x.r;
    }

    method CloseFd(fd: int) returns (r: int)
      modifies this
      ensures Ret(k, r) == Close(old(k), t, fd)
    {
      var x := Close(k, t, fd);
      k, r := x.k, x.r;
    }

    method ChangeDir(fd: int) returns (r: int)
      modifies this
      ensures Ret(k, r) == BestFchdir(v, old(k), t, fd)
    {
      var x := BestFchdir(v, k, t, fd);
      k, r := x.k, x.r;
    }

    method Act(what: Call) returns (r: int)
      modifies this
      ensures Ret(k, r) == Perform(old(k), t, what(Cwd(old(k), t)))
    {
      var x := Perform(k, t, what(Cwd(k, t)));
      k, r := x.k, x.r;
    }

    /** PROTECT_ERRNO(__mpls_best_fchdir(oldCWD)), then PROTECT_ERRNO(close(oldCWD)) if there is one. */
    method GoBack(oldCWD: int)
      modifies this
      ensures k == WentBack(v, old(k), t, oldCWD)
    {
      var e := Errno(k, t);
      var r := ChangeDir(oldCWD);
      k := SetErrno(k, t, e);
      if oldCWD != -1 {
        r := CloseFd(oldCWD);
        k := SetErrno(k, t, e);
      }
    }

    /**
     _ATCALL. `dot` is the answer to open("."). `early` says that the enclosing function returns
     its error value at once.
     */
    method Run(fd: int, path: string, dot: Answer, what: Call) returns (early: bool, r: int)
      modifies this
      ensures Outcome(k, early, r) == AtCallOutcome(v, old(k), t, fd, path, dot, what)
    {
      var oldCWD := -1;
      r := -1;
      if fd != AT_FDCWD && !Absolute(path) {
        oldCWD := OpenCwd(dot);
        var x := ChangeDir(-1);
        if x < 0 && oldCWD != -1 {
          x := CloseFd(oldCWD);
          oldCWD := -1;
        }
        x := ChangeDir(fd);
        if x < 0 {
          GoBack(oldCWD);
          return true, -1;
        }
      }
      r := Act(what);
      if fd != AT_FDCWD && !Absolute(path) {
        GoBack(oldCWD);
      }
      early := false;
    }
  }

  function WentBack(v: Version, k: Proc, t: Tid, oldCWD: int): Proc {
    var e := Errno(k, t);
    var k1 := SetErrno(BestFchdir(v, k, t, oldCWD).k, t, e);
    if oldCWD == -1 then k1 else SetErrno(Close(k1, t, oldCWD).k, t, e)
  }

  datatype Outcome = Outcome(k: Proc, early: bool, r: int)

  /** The descriptor kept for the way back, and the process when the thread is about to go to the directory. */
  function Saved(v: Version, k: Proc, t: Tid, dot: Answer): Ret {
    var a := OpenDot(k, t, dot);
    var b := BestFchdir(v, a.k, t, -1);
    if b.r < 0 && a.r != -1 then Ret(Close(b.k, t, a.r).k, -1) else Ret(b.k, a.r)
  }

  function AtCallOutcome(v: Version, k: Proc, t: Tid, fd: int, path: string, dot: Answer, what: Call): Outcome {
    if !NeedsChdir(fd, path) then
      var p := Perform(k, t, what(Cwd(k, t)));
      Outcome(p.k, false, p.r)
    else
      var s := Saved(v, k, t, dot);
      var c := BestFchdir(v, s.k, t, fd);
      if c.r < 0 then Outcome(WentBack(v, c.k, t, s.r), true, -1)
      else
        var p := Perform(c.k, t, what(Cwd(c.k, t)));
        Outcome(WentBack(v, p.k, t, s.r), false, p.r)
  }

  // ---- What the sequence achieves ----

  /** open(".") gave a descriptor that is kept until the way back. */
  predicate Keeps(v: Version, k: Proc, t: Tid, dot: Answer) {
    OpenWorks(k, dot) && (v.ProcessWide? || t in k.own)
  }

  /**
   The two cases in which the sequence mistakes a bad descriptor for a good one: the number is that of the
   descriptor just opened on ".", or it is -1 on a system without per-thread directories.
   */
  predicate Mistaken(v: Version, k: Proc, t: Tid, fd: int, dot: Answer) {
    (Keeps(v, k, t, dot) && fd == dot.fd) || (v.ProcessWide? && fd == -1)
  }

  /** The way back can be walked: there was nothing to save, or what was saved can be entered again. */
  predicate CanGoBack(v: Version, k: Proc, t: Tid, dot: Answer) {
    match v
    case PerThread => t in k.own ==> OpenWorks(k, dot) && k.own[t] in k.searchable
    case ProcessWide => OpenWorks(k, dot) && k.cwd in k.searchable
  }

  /** Descriptors are non-negative, the system does not open one twice, and 10.4 has no per-thread directories. */
  ghost predicate Sane(v: Version, k: Proc, dot: Answer, what: Call) {
    && (forall fd | fd in k.fds :: fd >= 0)
    && (dot.Opened? ==> forall d: Dir :: dot.fd !in what(d).added)
    && (v.ProcessWide? ==> k.own == map[])
  }

  lemma SavedIs(v: Version, k: Proc, t: Tid, dot: Answer)
    requires v.ProcessWide? ==> k.own == map[]
    ensures var s := Saved(v, k, t, dot);
            && s.r == (if Keeps(v, k, t, dot) then dot.fd else -1)
            && s.k.fds == (if Keeps(v, k, t, dot) then k.fds[dot.fd := Directory(Cwd(k, t), 0, false)] else k.fds)
            && s.k.own == (if v.PerThread? then k.own - {t} else k.own)
            && s.k.cwd == k.cwd && s.k.searchable == k.searchable
            && forall u | u != t :: Errno(s.k, u) == Errno(k, u)
  {
    if OpenWorks(k, dot) {
      assert k.fds[dot.fd := Directory(Cwd(k, t), 0, false)] - {dot.fd} == k.fds;
    }
    assert t !in k.own ==> k.own - {t} == k.own;
  }

  /** Where the way back leads: the saved directory if it is there and can be entered. */
  function Returned(v: Version, k: Proc, t: Tid, oldCWD: int): Option<Dir> {
    match v
    case PerThread =>
      if oldCWD == -1 then None
      else if ChdirError(k, oldCWD) != 0 then OwnCwd(k, t) else Some(k.fds[oldCWD].dir)
    case ProcessWide => if oldCWD == -1 || ChdirError(k, oldCWD) != 0 then Some(k.cwd) else Some(k.fds[oldCWD].dir)
  }

  lemma WentBackIs(v: Version, k: Proc, t: Tid, oldCWD: int)
    requires oldCWD == -1 || oldCWD in k.fds
    requires -1 !in k.fds
    ensures var w := WentBack(v, k, t, oldCWD);
            && Home(v, w, t) == Returned(v, k, t, oldCWD)
            && w.fds == k.fds - {oldCWD} && Errno(w, t) == Errno(k, t) && w.searchable == k.searchable
            && (v.PerThread? ==> w.cwd == k.cwd && w.own.Keys + {t} == k.own.Keys + {t})
            && (v.ProcessWide? ==> w.own == k.own)
            && forall u | u != t :: OwnCwd(w, u) == OwnCwd(k, u) && Errno(w, u) == Errno(k, u)
  {
    var e := Errno(k, t);
    var b := BestFchdir(v, k, t, oldCWD);
    assert b.k.fds == k.fds;
    assert k.fds - {-1} == k.fds;
  }

  /** The working directory is given back exactly when the way back can be walked (or was never left, on 10.4). */
  lemma HomeRestored(v: Version, k: Proc, t: Tid, fd: int, path: string, dot: Answer, what: Call)
    requires Sane(v, k, dot, what) && NeedsChdir(fd, path)
    ensures var o, s := AtCallOutcome(v, k, t, fd, path, dot, what), Saved(v, k, t, dot);
            Home(v, o.k, t) == Home(v, k, t) <==>
            CanGoBack(v, k, t, dot) ||
            (v.ProcessWide? && (fd == -1 || ChdirError(s.k, fd) != 0 || s.k.fds[fd].dir == k.cwd))
  {
    hide WentBack, Saved, OpenDot;
    SavedIs(v, k, t, dot);
    var s := Saved(v, k, t, dot);
    var c := BestFchdir(v, s.k, t, fd);
    if c.r < 0 {
      WentBackIs(v, c.k, t, s.r);
    } else {
      var p := Perform(c.k, t, what(Cwd(c.k, t)));
      WentBackIs(v, p.k, t, s.r);
    }
  }

  /** Without a change of directory nothing but the wrapped call happens. */
  lemma NoChdir(v: Version, k: Proc, t: Tid, fd: int, path: string, dot: Answer, what: Call)
    requires fd == -2 || (path != "" && path[0] == '/')
    ensures var o := AtCallOutcome(v, k, t, fd, path, dot, what);
            Ret(o.k, o.r) == Perform(k, t, what(Cwd(k, t))) && !o.early && Home(v, o.k, t) == Home(v, k, t)
  {}

  /** A bad descriptor: the enclosing function fails with the error of fchdir, and no descriptor is left behind. */
  lemma BadDescriptor(v: Version, k: Proc, t: Tid, fd: int, path: string, dot: Answer, what: Call)
    requires Sane(v, k, dot, what) && fd != -2 && (path == "" || path[0] != '/')
    requires !Mistaken(v, k, t, fd, dot)
    requires fd in k.fds ==> k.fds[fd].Other? || k.fds[fd].dir !in k.searchable
    ensures var o := AtCallOutcome(v, k, t, fd, path, dot, what);
            && o.early && o.r == -1 && o.k.fds == k.fds
            && Errno(o.k, t) == if fd !in k.fds then 9 else if k.fds[fd].Other? then 20 else 13
  {
    hide WentBack, Saved, OpenDot;
    SavedIs(v, k, t, dot);
    var s := Saved(v, k, t, dot);
    var c := BestFchdir(v, s.k, t, fd);
    WentBackIs(v, c.k, t, s.r);
    assert c.k.fds - {s.r} == k.fds;
  }

  /** A good descriptor: the call acts in its directory, and leaves exactly the descriptors that it opened itself. */
  lemma GoodDescriptor(v: Version, k: Proc, t: Tid, fd: int, path: string, dot: Answer, what: Call)
    requires Sane(v, k, dot, what) && fd != -2 && (path == "" || path[0] != '/')
    requires fd in k.fds && k.fds[fd].Directory? && k.fds[fd].dir in k.searchable
    ensures var o, e := AtCallOutcome(v, k, t, fd, path, dot, what), what(k.fds[fd].dir);
            !o.early && o.r == e.r && o.k.fds == k.fds + NewFds(k, e) && (e.r < 0 ==> Errno(o.k, t) == e.error)
  {
    hide WentBack, Saved, OpenDot;
    SavedIs(v, k, t, dot);
    var s := Saved(v, k, t, dot);
    var c := BestFchdir(v, s.k, t, fd);
    var e := what(k.fds[fd].dir);
    FdsAround(k, c.k, e, s.r);
    WentBackIs(v, Perform(c.k, t, e).k, t, s.r);
  }

  /** Around the wrapped call the saved descriptor comes and goes. */
  lemma FdsAround(k: Proc, c: Proc, e: Effect, saved: int)
    requires -1 !in k.fds && saved !in k.fds && (saved == -1 || saved !in e.added)
    requires if saved == -1 then c.fds == k.fds else saved in c.fds && c.fds - {saved} == k.fds
    ensures c.fds + NewFds(c, e) - {saved} == k.fds + NewFds(k, e)
  {
    assert NewFds(c, e) == NewFds(k, e);
  }

  /**
   Mistaken, the call acts in the current directory although the descriptor is not open; only if that directory may not
   be entered there is an error, but the wrong one. The descriptor -1 on 10.4 is not even looked at.
   */
  lemma MistakenActs(v: Version, k: Proc, t: Tid, fd: int, path: string, dot: Answer, what: Call)
    requires Sane(v, k, dot, what) && NeedsChdir(fd, path) && Mistaken(v, k, t, fd, dot)
    ensures ChdirError(k, fd) == EBADF
    ensures var o := AtCallOutcome(v, k, t, fd, path, dot, what);
            if Cwd(k, t) in k.searchable || fd == -1 then !o.early && o.r == what(Cwd(k, t)).r
            else o.early && o.r == -1 && Errno(o.k, t) == EACCES && o.k.fds == k.fds
  {
    hide WentBack, Saved, OpenDot;
    SavedIs(v, k, t, dot);
    var s := Saved(v, k, t, dot);
    var c := BestFchdir(v, s.k, t, fd);
    if c.r < 0 {
      WentBackIs(v, c.k, t, s.r);
      assert c.k.fds - {s.r} == k.fds;
    }
  }

  /** Everything of `k` that the thread `t` has no business with. */
  ghost predicate SameForOthers(v: Version, k: Proc, k': Proc, t: Tid) {
    && k'.searchable == k.searchable
    && (forall u | u != t :: OwnCwd(k', u) == OwnCwd(k, u) && Errno(k', u) == Errno(k, u))
    && (v.PerThread? ==> k'.cwd == k.cwd)
    && (v.ProcessWide? ==> k'.own == k.own)
  }

  lemma StepsSameForOthers(v: Version, k: Proc, t: Tid, fd: int, e: Effect)
    ensures SameForOthers(v, k, BestFchdir(v, k, t, fd).k, t)
    ensures SameForOthers(v, k, Perform(k, t, e).k, t)
  {}

  lemma SavedSameForOthers(v: Version, k: Proc, t: Tid, dot: Answer)
    requires v.ProcessWide? ==> k.own == map[]
    ensures SameForOthers(v, k, Saved(v, k, t, dot).k, t)
  {
    hide Saved;
    SavedIs(v, k, t, dot);
  }

  lemma SameTrans(v: Version, a: Proc, b: Proc, c: Proc, t: Tid)
    requires SameForOthers(v, a, b, t) && SameForOthers(v, b, c, t)
    ensures SameForOthers(v, a, c, t)
  {}

  lemma SmallStepsSame(v: Version, k: Proc, t: Tid, fd: int, e: int)
    ensures SameForOthers(v, k, SetErrno(k, t, e), t)
    ensures SameForOthers(v, k, Close(k, t, fd).k, t)
  {}

  lemma BackTo(v: Version, k: Proc, t: Tid, oldCWD: int)
    ensures SameForOthers(v, k, WentBack(v, k, t, oldCWD), t)
  {
    hide BestFchdir, SameForOthers, SetErrno, Close, Errno;
    var e := Errno(k, t);
    var b := BestFchdir(v, k, t, oldCWD).k;
    StepsSameForOthers(v, k, t, oldCWD, Effect(0, 0, map[]));
    SmallStepsSame(v, b, t, oldCWD, e);
    var k1 := SetErrno(b, t, e);
    SameTrans(v, k, b, k1, t);
    SmallStepsSame(v, k1, t, oldCWD, e);
    var d := Close(k1, t, oldCWD).k;
    SmallStepsSame(v, d, t, oldCWD, e);
    SameTrans(v, k, k1, d, t);
    SameTrans(v, k, d, SetErrno(d, t, e), t);
  }

  /** Nobody else is affected; with per-thread directories not even the process's own one changes. */
  lemma OthersUnaffected(v: Version, k: Proc, t: Tid, fd: int, path: string, dot: Answer, what: Call)
    requires Sane(v, k, dot, what)
    ensures SameForOthers(v, k, AtCallOutcome(v, k, t, fd, path, dot, what).k, t)
  {
    hide WentBack, Saved, BestFchdir, Perform, SameForOthers;
    if NeedsChdir(fd, path) {
      SavedSameForOthers(v, k, t, dot);
      var s := Saved(v, k, t, dot);
      var c := BestFchdir(v, s.k, t, fd);
      var e := what(Cwd(c.k, t));
      StepsSameForOthers(v, s.k, t, fd, e);
      StepsSameForOthers(v, c.k, t, fd, e);
      SameTrans(v, k, s.k, c.k, t);
      BackTo(v, c.k, t, s.r);
      SameTrans(v, k, c.k, WentBack(v, c.k, t, s.r), t);
      var p := Perform(c.k, t, e).k;
      SameTrans(v, k, c.k, p, t);
      BackTo(v, p, t, s.r);
      SameTrans(v, k, p, WentBack(v, p, t, s.r), t);
    } else {
      StepsSameForOthers(v, k, t, fd, what(Cwd(k, t)));
    }
  }

  // ---- Cases in which the promises fail ----

  const NOTHING: Call := _ => Effect(0, 0, map[])

  /**
   A thread in directory 5 of its own, descriptors 3 on directory 7, no descriptor left for open("."): it ends
   nowhere.
   */
  lemma HomeLost()
    ensures var k := Proc(0, map[1 := 5], map[3 := Directory(7, 0, false)], map[], {5, 7});
            Home(PerThread, k, 1) == Some(5)
            && Home(PerThread, AtCallOutcome(PerThread, k, 1, 3, "f", Refused(EMFILE), NOTHING).k, 1) == None
  {
    var k := Proc(0, map[1 := 5], map[3 := Directory(7, 0, false)], map[], {5, 7});
    var s := Saved(PerThread, k, 1, Refused(EMFILE));
    assert s.r == -1 && s.k.fds == k.fds && 1 !in s.k.own;
    var c := BestFchdir(PerThread, s.k, 1, 3);
    WentBackIs(PerThread, Perform(c.k, 1, NOTHING(7)).k, 1, -1);
  }

  /** Descriptor 4 is not open, and open(".") gets that number: the call succeeds, in directory 5. */
  lemma TakenForOpen()
    ensures var k := Proc(0, map[1 := 5], map[3 := Directory(7, 0, false)], map[], {5, 7});
            var o := AtCallOutcome(PerThread, k, 1, 4, "f", Opened(4), NOTHING);
            4 !in k.fds && !o.early && o.r == 0
  {
    MistakenActs(PerThread, Proc(0, map[1 := 5], map[3 := Directory(7, 0, false)], map[], {5, 7}), 1, 4, "f", Opened(4),
      NOTHING);
  }
}
