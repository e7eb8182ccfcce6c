/**
 The _ATCALL sequence run by any number of threads, one system call at a time in any order,
 beside whatever the rest of the program does.
 */
module AtCallThreads {
  import opened Wrappers
  import opened Kernel
  import opened AtCall

  /** The system call that a thread makes next. */
  datatype Pc = Opening | Clearing | Dropping | Changing | Acting | Returning | Closing | Done

  /**
   A thread inside _ATCALL. `saved` is oldCWD; `got`, `own0`, `target` and `err` remember whether open(".")
   worked, the directory to go back to (the thread's own, or on 10.4 the process's) when it was called, the directory
   that was entered and the errno of the failing step.
   */
  datatype Thread = Thread(pc: Pc, fd: int, path: string, saved: int, early: bool, r: int,
                           got: bool, own0: Option<Dir>, target: Dir, err: int)

  /** `added` are the descriptors that wrapped calls opened. */
  datatype System = System(v: Version, k: Proc, th: map<Tid, Thread>, added: set<int>)

  datatype Event =
    | Enter(t: Tid, fd: int, path: string)
    | Step(t: Tid, dot: Answer, what: Call)
    | Elsewhere(k: Proc)

  predicate Busy(s: System, t: Tid) {
    t in s.th && s.th[t].pc != Done
  }

  /** The saved descriptor is open on behalf of the thread. */
  predicate Holds(th: Thread) {
    th.saved != -1 && th.pc != Opening && th.pc != Done
  }

  /** Between its first and its last system call, with a change of directory. */
  predicate Inside(x: Thread) {
    NeedsChdir(x.fd, x.path) && x.pc != Opening && x.pc != Done
  }

  /**
   The rest of the program leaves threads inside _ATCALL and their saved descriptors alone, on 10.4 also the process's
   directory.
   */
  ghost predicate Harmless(s: System, k: Proc) {
    && k.searchable == s.k.searchable
    && (forall fd | fd in k.fds :: fd >= 0)
    && (forall t | Busy(s, t) :: OwnCwd(k, t) == OwnCwd(s.k, t) && Errno(k, t) == Errno(s.k, t))
    && (forall t | t in s.th && Holds(s.th[t]) :: s.th[t].saved in k.fds && s.th[t].saved in s.k.fds &&
                                                  k.fds[s.th[t].saved] == s.k.fds[s.th[t].saved])
    && (s.v.ProcessWide? ==> k.own == map[] && ((exists t | t in s.th :: Inside(s.th[t])) ==> k.cwd == s.k.cwd))
  }

  function Protected(k: Proc, t: Tid, after: Proc): Proc {
    SetErrno(after, t, Errno(k, t))
  }

  /** One system call of thread `t`. */
  function StepThread(s: System, t: Tid, dot: Answer, what: Call): System
    requires t in s.th
  {
    var x, k := s.th[t], s.k;
    match x.pc
    case Opening =>
      var a := OpenDot(k, t, dot);
      s.(k := a.k, th := s.th[t := x.(pc := Clearing, saved := a.r, got := a.r != -1, own0 := Home(s.v, k, t))])
    case Clearing =>
      var b := BestFchdir(s.v, k, t, -1);
      s.(k := b.k, th := s.th[t := x.(pc := if b.r < 0 && x.saved != -1 then Dropping else Changing)])
    case Dropping =>
      s.(k := Close(k, t, x.saved).k, th := s.th[t := x.(pc := Changing, saved := -1)])
    case Changing =>
      var c := BestFchdir(s.v, k, t, x.fd);
      if c.r < 0 then s.(k := c.k, th := s.th[t := x.(pc := Returning, early := true, r := -1, err := Errno(c.k, t))])
      else s.(k := c.k, th := s.th[t := x.(pc := Acting, target := Cwd(c.k, t))])
    case Acting =>
      var e := what(Cwd(k, t));
      var p := Perform(k, t, e);
      s.(k := p.k, added := s.added + NewFds(k, e).Keys,
         th := s.th[t := x.(pc := if NeedsChdir(x.fd, x.path) then Returning else Done,
                            r := p.r, err := Errno(p.k, t))])
    case Returning =>
      s.(k := Protected(k, t, BestFchdir(s.v, k, t, x.saved).k),
         th := s.th[t := x.(pc := if x.saved != -1 then Closing else Done)])
    case Closing =>
      s.(k := Protected(k, t, Close(k, t, x.saved).k), th := s.th[t := x.(pc := Done)])
    case Done => s
  }

  ghost function Do(s: System, e: Event): System {
    match e
    case Enter(t, fd, path) =>
      if Busy(s, t) then s
      else
        var pc := if NeedsChdir(fd, path) then Opening else Acting;
        s.(th := s.th[t := Thread(pc, fd, path, -1, false, 0, false, OwnCwd(s.k, t), 0, 0)])
    case Step(t, dot, what) => if t in s.th then StepThread(s, t, dot, what) else s
    case Elsewhere(k) => if Harmless(s, k) then s.(k := k) else s
  }

  ghost function Run(s: System, es: seq<Event>): System
    decreases |es|
  {
    if es == [] then s else Do(Run(s, es[..|es| - 1]), es[|es| - 1])
  }

  // ---- What holds in every reachable state ----

  /** What was saved, as long as it matters: nothing if the thread had no directory of its own. */
  predicate SavedOk(k: Proc, x: Thread) {
    match x.own0
    case None => x.saved == -1
    case Some(d) =>
      && (x.saved == -1 <==> !x.got)
      && (x.saved != -1 ==> x.saved in k.fds && k.fds[x.saved].Directory? && k.fds[x.saved].dir == d)
  }

  /** The thread's own directory is what it was on entry exactly when it was saved and can be entered again. */
  predicate HomeAgain(k: Proc, t: Tid, x: Thread) {
    OwnCwd(k, t) == x.own0 <==>
    (NeedsChdir(x.fd, x.path) && x.own0.Some? ==> x.got && x.own0.value in k.searchable)
  }

  predicate ErrnoKept(k: Proc, t: Tid, x: Thread) {
    x.early || x.r < 0 ==> Errno(k, t) == x.err
  }

  predicate ThreadOk(k: Proc, t: Tid, x: Thread) {
    var needs := NeedsChdir(x.fd, x.path);
    && x.saved >= -1
    && (x.early ==> x.r == -1)
    && match x.pc
       case Opening => needs && OwnCwd(k, t) == x.own0 && x.saved == -1 && !x.early && !x.got
       case Clearing =>
         && needs && OwnCwd(k, t) == x.own0 && !x.early && (x.saved == -1 <==> !x.got)
         && (x.saved != -1 ==> x.saved in k.fds && k.fds[x.saved].Directory?)
         && (x.saved != -1 && x.own0.Some? ==> k.fds[x.saved].dir == x.own0.value)
       case Dropping => needs && x.own0 == None && t !in k.own && x.saved in k.fds && x.saved >= 0 && !x.early
       case Changing => needs && t !in k.own && SavedOk(k, x) && !x.early
       case Acting =>
         && !x.early
         && if needs then OwnCwd(k, t) == Some(x.target) && x.target in k.searchable && SavedOk(k, x)
            else OwnCwd(k, t) == x.own0 && x.saved == -1
       case Returning =>
         && needs && SavedOk(k, x) && ErrnoKept(k, t, x)
         && if x.early then t !in k.own else OwnCwd(k, t) == Some(x.target) && x.target in k.searchable
       case Closing => needs && HomeAgain(k, t, x) && ErrnoKept(k, t, x) && x.saved in k.fds && x.saved >= 0
       case Done => HomeAgain(k, t, x) && ErrnoKept(k, t, x)
  }

  /** Threads inside _ATCALL are in order and no two hold the same descriptor. */
  ghost predicate Inv(s: System) {
    && s.v.PerThread?
    && (forall fd | fd in s.k.fds :: fd >= 0)
    && (forall t | Busy(s, t) :: ThreadOk(s.k, t, s.th[t]))
    && (forall t, u | t in s.th && u in s.th && t != u && Holds(s.th[t]) && Holds(s.th[u]) ::
       s.th[t].saved != s.th[u].saved)
  }

  // ---- One system call keeps it ----

  lemma StepOwn(s: System, t: Tid, dot: Answer, what: Call)
    requires Inv(s) && Busy(s, t)
    ensures var s' := StepThread(s, t, dot, what); t in s'.th && ThreadOk(s'.k, t, s'.th[t])
  {
    assert ThreadOk(s.k, t, s.th[t]);
  }

  /** A system call of one thread changes no other thread and not the process's directory. */
  lemma StepFrame(s: System, t: Tid, dot: Answer, what: Call)
    requires Inv(s) && Busy(s, t)
    ensures var s' := StepThread(s, t, dot, what);
            && s'.v == s.v && SameForOthers(PerThread, s.k, s'.k, t)
            && (forall u | u != t :: (u in s'.th <==> u in s.th) && (u in s.th ==> s'.th[u] == s.th[u]))
  {
    hide ThreadOk, BestFchdir, Close, Perform, OpenDot, SetErrno, SameForOthers, NewFds;
    var x, k := s.th[t], s.k;
    var fd := if x.pc == Clearing then -1 else if x.pc == Returning then x.saved else x.fd;
    StepsSameForOthers(PerThread, k, t, fd, what(Cwd(k, t)));
    SmallStepsSame(PerThread, k, t, x.saved, 0);
    OpenSame(k, t, dot);
    ProtectedSame(k, BestFchdir(PerThread, k, t, x.saved).k, t);
    ProtectedSame(k, Close(k, t, x.saved).k, t);
    SameTrans(PerThread, k, k, k, t) by {
      SameSelf(k, t);
    }
  }

  lemma SameSelf(k: Proc, t: Tid)
    ensures SameForOthers(PerThread, k, k, t)
  {}

  lemma OpenSame(k: Proc, t: Tid, dot: Answer)
    ensures SameForOthers(PerThread, k, OpenDot(k, t, dot).k, t)
  {}

  lemma ProtectedSame(k: Proc, k': Proc, t: Tid)
    ensures SameForOthers(PerThread, k, k', t) ==> SameForOthers(PerThread, k, Protected(k, t, k'), t)
  {}

  /** Only the descriptor that the thread itself holds can go away. */
  lemma StepFds(s: System, t: Tid, dot: Answer, what: Call)
    requires Inv(s) && Busy(s, t)
    ensures var s' := StepThread(s, t, dot, what);
            && (forall fd | fd in s'.k.fds :: fd >= 0)
            && (forall fd | fd in s.k.fds && (Holds(s.th[t]) ==> fd != s.th[t].saved) ::
                  fd in s'.k.fds && s'.k.fds[fd] == s.k.fds[fd])
  {
    assert ThreadOk(s.k, t, s.th[t]);
    hide OwnCwd, Errno, SetErrno;
  }

  /** A descriptor is new to its holder when it was unused. */
  lemma StepHolds(s: System, t: Tid, dot: Answer, what: Call)
    requires Inv(s) && Busy(s, t)
    ensures var s' := StepThread(s, t, dot, what);
            Holds(s'.th[t]) ==> (Holds(s.th[t]) && s'.th[t].saved == s.th[t].saved) || s'.th[t].saved !in s.k.fds
  {
    assert ThreadOk(s.k, t, s.th[t]);
  }

  lemma OtherOk(k: Proc, k': Proc, u: Tid, x: Thread)
    requires ThreadOk(k, u, x) && k'.searchable == k.searchable
    requires OwnCwd(k', u) == OwnCwd(k, u) && Errno(k', u) == Errno(k, u)
    requires Holds(x) && x.saved in k.fds ==> x.saved in k'.fds && k'.fds[x.saved] == k.fds[x.saved]
    ensures ThreadOk(k', u, x)
  {}

  lemma HeldIsOpen(k: Proc, u: Tid, x: Thread)
    requires ThreadOk(k, u, x) && Holds(x)
    ensures x.saved in k.fds
  {}

  lemma InvStep(s: System, t: Tid, dot: Answer, what: Call)
    requires Inv(s) && Busy(s, t)
    ensures Inv(StepThread(s, t, dot, what))
  {
    hide StepThread, ThreadOk, OwnCwd, Errno;
    var s' := StepThread(s, t, dot, what);
    StepOwn(s, t, dot, what);
    StepFrame(s, t, dot, what);
    StepFds(s, t, dot, what);
    StepHolds(s, t, dot, what);
    forall u | Busy(s', u)
      ensures ThreadOk(s'.k, u, s'.th[u])
    {
      if u != t {
        OtherHolder(s, t, u);
        OtherOk(s.k, s'.k, u, s.th[u]);
      }
    }
    forall u, w | u in s'.th && w in s'.th && u != w && Holds(s'.th[u]) && Holds(s'.th[w])
      ensures s'.th[u].saved != s'.th[w].saved
    {
      if u != t {
        OtherHolder(s, t, u);
      }
      if w != t {
        OtherHolder(s, t, w);
      }
    }
  }

  /** What another thread holds is open and not the descriptor of `t`. */
  lemma OtherHolder(s: System, t: Tid, u: Tid)
    requires Inv(s) && Busy(s, t) && u in s.th && u != t
    ensures Holds(s.th[u]) ==> s.th[u].saved in s.k.fds && (Holds(s.th[t]) ==> s.th[u].saved != s.th[t].saved)
  {
    if Holds(s.th[u]) {
      HeldIsOpen(s.k, u, s.th[u]);
    }
  }

  lemma InvDo(s: System, e: Event)
    requires Inv(s)
    ensures Inv(Do(s, e))
  {
    match e
    case Enter(t, fd, path) =>
      EnterOk(s, t, fd, path);
    case Step(t, dot, what) =>
      if t in s.th {
        if Busy(s, t) {
          InvStep(s, t, dot, what);
        }
      }
    case Elsewhere(k) =>
      if Harmless(s, k) {
        ElsewhereOk(s, k);
      }
  }

  lemma EnterOk(s: System, t: Tid, fd: int, path: string)
    requires Inv(s)
    ensures Inv(Do(s, Enter(t, fd, path)))
  {
    hide NeedsChdir;
  }

  lemma ElsewhereOk(s: System, k: Proc)
    requires Inv(s) && Harmless(s, k)
    ensures Inv(s.(k := k))
  {
    hide ThreadOk, OwnCwd, Errno;
    var s' := s.(k := k);
    forall u | Busy(s', u)
      ensures ThreadOk(k, u, s.th[u])
    {
      assert Busy(s, u);
      OtherOk(s.k, k, u, s.th[u]);
    }
  }

  /** The start: nobody is inside _ATCALL, on a system with per-thread directories. */
  ghost predicate Start(s: System) {
    s.v.PerThread? && s.th == map[] && s.added == {} && forall fd | fd in s.k.fds :: fd >= 0
  }

  lemma {:induction false} AlwaysInv(s: System, es: seq<Event>)
    requires Start(s)
    ensures Inv(Run(s, es))
    decreases |es|
  {
    hide Do, Inv;
    if es == [] {
      StartInv(s);
    } else {
      AlwaysInv(s, es[..|es| - 1]);
      InvDo(Run(s, es[..|es| - 1]), es[|es| - 1]);
    }
  }

  lemma StartInv(s: System)
    requires Start(s)
    ensures Inv(s)
  {}

  /**
   In every interleaving, the last system call of a thread's _ATCALL leaves its own directory as it was on entry
   exactly when open(".") worked and the directory can be entered again (or there was none), leaves errno as the
   failing step set it, and leaves the saved descriptor closed.
   */
  lemma EveryExit(s0: System, es: seq<Event>, t: Tid, dot: Answer, what: Call)
    requires Start(s0)
    requires var s := Run(s0, es); Busy(s, t) && StepThread(s, t, dot, what).th[t].pc == Done
    ensures var s := Run(s0, es); var s' := StepThread(s, t, dot, what);
            var x := s'.th[t];
            && (OwnCwd(s'.k, t) == x.own0 <==>
                  (NeedsChdir(x.fd, x.path) && x.own0.Some? ==> x.got && x.own0.value in s'.k.searchable))
            && (x.early || x.r < 0 ==> Errno(s'.k, t) == x.err)
            && (Holds(s.th[t]) ==> s.th[t].saved !in s'.k.fds)
  {
    hide Run, HomeAgain, ErrnoKept, OwnCwd, Errno, NeedsChdir;
    AlwaysInv(s0, es);
    var s' := StepThread(Run(s0, es), t, dot, what);
    StepOwn(Run(s0, es), t, dot, what);
    ExitIs(s'.k, t, s'.th[t]);
    LastStepCloses(Run(s0, es), t, dot, what);
  }

  lemma ExitIs(k: Proc, t: Tid, x: Thread)
    requires HomeAgain(k, t, x) && ErrnoKept(k, t, x)
    ensures OwnCwd(k, t) == x.own0 <==>
            (NeedsChdir(x.fd, x.path) && x.own0.Some? ==> x.got && x.own0.value in k.searchable)
    ensures x.early || x.r < 0 ==> Errno(k, t) == x.err
  {}

  /**
   What a thread remembers: the directory of its own and whether open(".") worked, from its first system call, and the
   errno of the step that failed, whatever comes after it.
   */
  lemma StepRemembers(s: System, t: Tid, dot: Answer, what: Call)
    requires Inv(s) && Busy(s, t)
    ensures var x, x' := s.th[t], StepThread(s, t, dot, what).th[t];
            && (if x.pc == Opening then x'.own0 == OwnCwd(s.k, t) && (x'.got <==> OpenWorks(s.k, dot))
                else x'.own0 == x.own0 && x'.got == x.got)
            && (x'.early && !x.early ==>
                  x'.err == if x.fd !in s.k.fds then 9 else if s.k.fds[x.fd].Other? then 20 else 13)
            && (x.pc == Acting && x'.r < 0 ==> x'.err == what(Cwd(s.k, t)).error)
            && (x.pc in {Returning, Closing} ==> x'.err == x.err && x'.r == x.r && x'.early == x.early)
  {
    assert ThreadOk(s.k, t, s.th[t]);
  }

  lemma LastStepCloses(s: System, t: Tid, dot: Answer, what: Call)
    requires Inv(s) && Busy(s, t) && StepThread(s, t, dot, what).th[t].pc == Done
    ensures Holds(s.th[t]) ==> s.th[t].saved !in StepThread(s, t, dot, what).k.fds
  {
    assert ThreadOk(s.k, t, s.th[t]);
  }

  /** The wrapped call acts in the directory of the descriptor as it was when the thread went there. */
  lemma ActsInTarget(s: System, t: Tid, dot: Answer, what: Call)
    requires Inv(s) && Busy(s, t)
    ensures var x, x' := s.th[t], StepThread(s, t, dot, what).th[t];
            && (x.pc == Changing ==>
                  if ChdirError(s.k, x.fd) == 0 && x.fd != -1 then x'.pc == Acting && x'.target == s.k.fds[x.fd].dir
                  else x'.early && x'.pc == Returning)
            && (x.pc == Acting && NeedsChdir(x.fd, x.path) ==> x'.r == what(x.target).r)
  {
    assert ThreadOk(s.k, t, s.th[t]);
  }

  // ---- Conservation, when nobody else touches the process ----

  ghost function Held(s: System): set<int> {
    set t | t in s.th && Holds(s.th[t]) :: s.th[t].saved
  }

  /** Open are the descriptors of the start, those that wrapped calls opened, and the saved ones, all distinct. */
  ghost predicate Conserved(s: System, base: set<int>) {
    && s.k.fds.Keys == base + s.added + Held(s)
    && (base + s.added) * Held(s) == {}
  }

  function Fresh(s: System, t: Tid, what: Call): (n: set<int>)
    requires t in s.th
    ensures n !! s.k.fds.Keys
  {
    if s.th[t].pc == Acting then NewFds(s.k, what(Cwd(s.k, t))).Keys else {}
  }

  function Grabbed(x: Thread, x': Thread): set<int> {
    if !Holds(x) && Holds(x') then {x'.saved} else {}
  }

  lemma StepAdded(s: System, t: Tid, dot: Answer, what: Call)
    requires Inv(s) && Busy(s, t)
    ensures var s' := StepThread(s, t, dot, what);
            var x, x' := s.th[t], s'.th[t];
            && s'.added == s.added + Fresh(s, t, what)
            && (Holds(x) && Holds(x') ==> x.saved == x'.saved)
            && (Grabbed(x, x') + Grabbed(x', x) != {} ==> Fresh(s, t, what) == {})
  {
    hide OwnCwd, Errno, Cwd, BestFchdir, SetErrno;
    assert ThreadOk(s.k, t, s.th[t]);
  }

  /** What a system call does to the set of open descriptors. */
  lemma StepKeys(s: System, t: Tid, dot: Answer, what: Call)
    requires Inv(s) && Busy(s, t)
    ensures var s' := StepThread(s, t, dot, what);
            var x, x' := s.th[t], s'.th[t];
            && Grabbed(x, x') !! s.k.fds.Keys
            && s'.k.fds.Keys == (s.k.fds.Keys + Fresh(s, t, what) + Grabbed(x, x')) - Grabbed(x', x)
  {
    hide OwnCwd, Errno, NeedsChdir, BestFchdir;
    assert ThreadOk(s.k, t, s.th[t]);
    ChdirKeepsFds(s, t, -1);
    ChdirKeepsFds(s, t, s.th[t].fd);
    ChdirKeepsFds(s, t, s.th[t].saved);
  }

  lemma ChdirKeepsFds(s: System, t: Tid, fd: int)
    ensures BestFchdir(s.v, s.k, t, fd).k.fds == s.k.fds
  {}

  lemma HeldStep(s: System, t: Tid, dot: Answer, what: Call)
    requires Inv(s) && Busy(s, t)
    ensures var s' := StepThread(s, t, dot, what);
            var x, x' := s.th[t], s'.th[t];
            Held(s') == (Held(s) + Grabbed(x, x')) - Grabbed(x', x)
  {
    hide StepThread, ThreadOk;
    var s' := StepThread(s, t, dot, what);
    StepFrame(s, t, dot, what);
    StepAdded(s, t, dot, what);
    StepKeys(s, t, dot, what);
    StepOwn(s, t, dot, what);
    var x, x' := s.th[t], s'.th[t];
    forall fd
      ensures fd in Held(s') <==> fd in (Held(s) + Grabbed(x, x')) - Grabbed(x', x)
    {
      if u :| u in s.th && u != t && Holds(s.th[u]) && s.th[u].saved == fd {
        OtherHolder(s, t, u);
        assert s'.th[u] == s.th[u] && u in s'.th;
      }
    }
  }

  lemma ConservedStep(s: System, t: Tid, dot: Answer, what: Call, base: set<int>)
    requires Inv(s) && Busy(s, t) && Conserved(s, base)
    ensures Conserved(StepThread(s, t, dot, what), base)
  {
    hide StepThread, Held, Inv, Fresh, Grabbed;
    StepOwn(s, t, dot, what);
    StepAdded(s, t, dot, what);
    StepKeys(s, t, dot, what);
    HeldStep(s, t, dot, what);
    GrabbedHeld(s, t, StepThread(s, t, dot, what).th[t]);
  }

  lemma GrabbedHeld(s: System, t: Tid, x': Thread)
    requires t in s.th
    ensures Grabbed(x', s.th[t]) <= Held(s)
  {}

  /**
   As long as the threads do nothing but such calls, the process's directory and uninvolved threads' stay as they
   were.
   */
  ghost predicate Untouched(s0: System, s: System) {
    && s.k.cwd == s0.k.cwd && s.k.searchable == s0.k.searchable
    && forall u | u !in s.th :: OwnCwd(s.k, u) == OwnCwd(s0.k, u)
  }

  lemma {:induction false} OnlyCalls(s0: System, es: seq<Event>)
    requires Start(s0) && forall e | e in es :: !e.Elsewhere?
    ensures Conserved(Run(s0, es), s0.k.fds.Keys) && Untouched(s0, Run(s0, es))
    decreases |es|
  {
    hide Start, Inv, Conserved, Untouched, Do;
    if es == [] {
      assert Held(s0) == {} && s0.k.fds.Keys == s0.k.fds.Keys + {} + {} by {
        StartEmpty(s0);
      }
      StartConserved(s0);
    } else {
      var init, last := es[..|es| - 1], es[|es| - 1];
      OnlyCalls(s0, init);
      AlwaysInv(s0, init);
      assert last in es;
      DoConserved(s0, Run(s0, init), last);
    }
  }

  /** Once every thread is done, no saved descriptor is left, and no directory but the callers' own has changed. */
  lemma NothingLeft(s0: System, es: seq<Event>)
    requires Start(s0) && forall e | e in es :: !e.Elsewhere?
    requires forall t | t in Run(s0, es).th :: Run(s0, es).th[t].pc == Done
    ensures var s := Run(s0, es);
            && s.k.fds.Keys == s0.k.fds.Keys + s.added && s.k.cwd == s0.k.cwd
            && forall u | u !in s.th :: OwnCwd(s.k, u) == OwnCwd(s0.k, u)
  {
    hide Start, Run, OwnCwd;
    OnlyCalls(s0, es);
    assert Held(Run(s0, es)) == {};
  }

  lemma StartEmpty(s: System)
    requires Start(s)
    ensures Held(s) == {}
  {}

  lemma StartConserved(s: System)
    requires Start(s)
    ensures Conserved(s, s.k.fds.Keys) && Untouched(s, s)
  {
    StartEmpty(s);
  }

  lemma EnterConserved(s0: System, s: System, t: Tid, fd: int, path: string)
    requires Conserved(s, s0.k.fds.Keys) && Untouched(s0, s)
    ensures var s' := Do(s, Enter(t, fd, path)); Conserved(s', s0.k.fds.Keys) && Untouched(s0, s')
  {
    hide NeedsChdir, OwnCwd;
    var s' := Do(s, Enter(t, fd, path));
    if !Busy(s, t) {
      assert !Holds(s'.th[t]) && (t in s.th ==> !Holds(s.th[t]));
      assert forall u | u in s.th && u != t :: s'.th[u] == s.th[u];
      assert Held(s') == Held(s);
    }
  }

  lemma StepUntouched(s0: System, s: System, t: Tid, dot: Answer, what: Call)
    requires Inv(s) && Busy(s, t) && Untouched(s0, s)
    ensures Untouched(s0, StepThread(s, t, dot, what))
  {
    hide StepThread, Inv, OwnCwd;
    StepOwn(s, t, dot, what);
    StepFrame(s, t, dot, what);
  }

  lemma DoConserved(s0: System, s: System, e: Event)
    requires Inv(s) && !e.Elsewhere? && Conserved(s, s0.k.fds.Keys) && Untouched(s0, s)
    ensures Conserved(Do(s, e), s0.k.fds.Keys) && Untouched(s0, Do(s, e))
  {
    hide StepThread, Inv, Conserved, Untouched;
    if e.Enter? {
      EnterConserved(s0, s, e.t, e.fd, e.path);
    } else if Busy(s, e.t) {
      ConservedStep(s, e.t, e.dot, e.what, s0.k.fds.Keys);
      StepUntouched(s0, s, e.t, e.dot, e.what);
    } else if e.t in s.th {
      DoneStays(s, e.t, e.dot, e.what);
    }
  }

  lemma DoneStays(s: System, t: Tid, dot: Answer, what: Call)
    requires t in s.th && !Busy(s, t)
    ensures StepThread(s, t, dot, what) == s
  {}
}
