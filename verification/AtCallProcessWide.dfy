/**
 The _ATCALL sequence on 10.4, where all threads share the process's directory: what every interleaving keeps, when
 the directory is given back, and a run in which it is not.
 */
module AtCallProcessWide {
  import opened Wrappers
  import opened Kernel
  import opened AtCall
  import opened AtCallThreads

  // ---- What every interleaving keeps ----

  /** The way back, if it was saved, leads to the directory in which the process was at the thread's open("."). */
  predicate WayBack(k: Proc, x: Thread) {
    x.own0.Some? && SavedOk(k, x)
  }

  predicate WideOk(k: Proc, t: Tid, x: Thread) {
    var needs := NeedsChdir(x.fd, x.path);
    && x.saved >= -1
    && match x.pc
       case Opening => needs && x.saved == -1 && !x.early
       case Clearing => needs && !x.early && WayBack(k, x)
       case Dropping => false
       case Changing => needs && !x.early && WayBack(k, x)
       case Acting => !x.early && if needs then WayBack(k, x) else x.saved == -1
       case Returning => needs && WayBack(k, x) && ErrnoKept(k, t, x)
       case Closing => needs && WayBack(k, x) && ErrnoKept(k, t, x) && x.saved != -1
       case Done => true
  }

  ghost predicate WideInv(s: System) {
    && s.v.ProcessWide? && s.k.own == map[]
    && (forall fd | fd in s.k.fds :: fd >= 0)
    && (forall t | Busy(s, t) :: WideOk(s.k, t, s.th[t]))
    && (forall t, u | t in s.th && u in s.th && t != u && Holds(s.th[t]) && Holds(s.th[u]) ::
       s.th[t].saved != s.th[u].saved)
  }

  /** A system call of one thread: what it leaves alone. */
  lemma WideFrame(s: System, t: Tid, dot: Answer, what: Call)
    requires s.v.ProcessWide? && Busy(s, t)
    ensures var s' := StepThread(s, t, dot, what);
            && s'.v == s.v && SameForOthers(ProcessWide, s.k, s'.k, t)
            && t in s'.th && (forall u | u != t :: (u in s'.th <==> u in s.th) && (u in s.th ==> s'.th[u] == s.th[u]))
  {
    hide BestFchdir, Close, Perform, OpenDot, SetErrno, SameForOthers, NewFds;
    var x, k := s.th[t], s.k;
    var fd := if x.pc == Clearing then -1 else if x.pc == Returning then x.saved else x.fd;
    StepsSameForOthers(ProcessWide, k, t, fd, what(Cwd(k, t)));
    SmallStepsSame(ProcessWide, k, t, x.saved, 0);
    WideOpenSame(k, t, dot);
    WideProtected(k, BestFchdir(ProcessWide, k, t, x.saved).k, t);
    WideProtected(k, Close(k, t, x.saved).k, t);
  }

  lemma WideOpenSame(k: Proc, t: Tid, dot: Answer)
    ensures SameForOthers(ProcessWide, k, OpenDot(k, t, dot).k, t)
  {}

  lemma WideProtected(k: Proc, k': Proc, t: Tid)
    ensures SameForOthers(ProcessWide, k, k', t) ==> SameForOthers(ProcessWide, k, Protected(k, t, k'), t)
  {}

  /** Only the descriptor that the thread itself holds can go away, and what it gets was unused. */
  lemma WideFds(s: System, t: Tid, dot: Answer, what: Call)
    requires WideInv(s) && Busy(s, t)
    ensures var s' := StepThread(s, t, dot, what);
            && s'.k.own == map[] && (forall fd | fd in s'.k.fds :: fd >= 0)
            && (forall fd | fd in s.k.fds && (Holds(s.th[t]) ==> fd != s.th[t].saved) ::
                  fd in s'.k.fds && s'.k.fds[fd] == s.k.fds[fd])
            && (Holds(s'.th[t]) ==> (Holds(s.th[t]) && s'.th[t].saved == s.th[t].saved) || s'.th[t].saved !in s.k.fds)
  {
    assert WideOk(s.k, t, s.th[t]);
    hide OwnCwd, Errno, SetErrno;
  }

  lemma WideOwn(s: System, t: Tid, dot: Answer, what: Call)
    requires WideInv(s) && Busy(s, t)
    ensures var s' := StepThread(s, t, dot, what);
            && t in s'.th && WideOk(s'.k, t, s'.th[t])
            && (s'.th[t].pc == Done ==> ErrnoKept(s'.k, t, s'.th[t]) && (Holds(s.th[t]) ==> s.th[t].saved !in s'.k.fds))
  {
    assert WideOk(s.k, t, s.th[t]);
  }

  lemma WideOtherOk(k: Proc, k': Proc, u: Tid, x: Thread)
    requires WideOk(k, u, x) && Errno(k', u) == Errno(k, u)
    requires Holds(x) && x.saved in k.fds ==> x.saved in k'.fds && k'.fds[x.saved] == k.fds[x.saved]
    ensures WideOk(k', u, x)
  {}

  lemma WideHeld(k: Proc, u: Tid, x: Thread)
    requires WideOk(k, u, x) && Holds(x)
    ensures x.saved in k.fds
  {}

  lemma WideHolder(s: System, t: Tid, u: Tid)
    requires WideInv(s) && Busy(s, t) && u in s.th && u != t
    ensures Holds(s.th[u]) ==> s.th[u].saved in s.k.fds && (Holds(s.th[t]) ==> s.th[u].saved != s.th[t].saved)
  {
    if Holds(s.th[u]) {
      WideHeld(s.k, u, s.th[u]);
    }
  }

  lemma WideStep(s: System, t: Tid, dot: Answer, what: Call)
    requires WideInv(s) && Busy(s, t)
    ensures WideInv(StepThread(s, t, dot, what))
  {
    hide StepThread, WideOk, OwnCwd, Errno;
    var s' := StepThread(s, t, dot, what);
    WideOwn(s, t, dot, what);
    WideFrame(s, t, dot, what);
    WideFds(s, t, dot, what);
    forall u | Busy(s', u)
      ensures WideOk(s'.k, u, s'.th[u])
    {
      if u != t {
        WideHolder(s, t, u);
        WideOtherOk(s.k, s'.k, u, s.th[u]);
      }
    }
    forall u, w | u in s'.th && w in s'.th && u != w && Holds(s'.th[u]) && Holds(s'.th[w])
      ensures s'.th[u].saved != s'.th[w].saved
    {
      if u != t {
        WideHolder(s, t, u);
      }
      if w != t {
        WideHolder(s, t, w);
      }
    }
  }

  lemma WideEnter(s: System, t: Tid, fd: int, path: string)
    requires WideInv(s)
    ensures WideInv(Do(s, Enter(t, fd, path)))
  {
    hide NeedsChdir;
  }

  lemma WideElsewhere(s: System, k: Proc)
    requires WideInv(s) && Harmless(s, k)
    ensures WideInv(s.(k := k))
  {
    hide WideOk, OwnCwd, Errno;
    forall u | Busy(s.(k := k), u)
      ensures WideOk(k, u, s.th[u])
    {
      assert Busy(s, u);
      WideOtherOk(s.k, k, u, s.th[u]);
    }
  }

  lemma WideDo(s: System, e: Event)
    requires WideInv(s)
    ensures WideInv(Do(s, e))
  {
    hide WideInv, StepThread, Harmless;
    match e
    case Enter(t, fd, path) => WideEnter(s, t, fd, path);
    case Step(t, dot, what) =>
      if t in s.th {
        if Busy(s, t) {
          WideStep(s, t, dot, what);
        } else {
          DoneStays(s, t, dot, what);
        }
      }
    case Elsewhere(k) =>
      if Harmless(s, k) {
        WideElsewhere(s, k);
      }
  }

  /** The start: nobody is inside _ATCALL, on a system with only the process's directory. */
  ghost predicate WideStart(s: System) {
    s.v.ProcessWide? && s.k.own == map[] && s.th == map[] && s.added == {} && forall fd | fd in s.k.fds :: fd >= 0
  }

  lemma {:induction false} AlwaysWide(s: System, es: seq<Event>)
    requires WideStart(s)
    ensures WideInv(Run(s, es))
    decreases |es|
  {
    hide Do, WideInv;
    if es == [] {
      WideStartInv(s);
    } else {
      AlwaysWide(s, es[..|es| - 1]);
      WideDo(Run(s, es[..|es| - 1]), es[|es| - 1]);
    }
  }

  lemma WideStartInv(s: System)
    requires WideStart(s)
    ensures WideInv(s)
  {}

  /** In every interleaving: each system call but the change and the way back leaves the process where it is. */
  function Moved(s: System, t: Tid): Dir
    requires t in s.th
  {
    var x, k := s.th[t], s.k;
    if x.pc == Changing && x.fd != -1 && ChdirError(k, x.fd) == 0 then k.fds[x.fd].dir
    else if x.pc == Returning && x.got && x.own0.Some? && x.own0.value in k.searchable then x.own0.value
    else k.cwd
  }

  /** The way back leads to where the process was at the thread's own open("."), whatever other threads did since. */
  lemma StepMoves(s: System, t: Tid, dot: Answer, what: Call)
    requires WideInv(s) && Busy(s, t)
    ensures StepThread(s, t, dot, what).k.cwd == Moved(s, t)
  {
    assert WideOk(s.k, t, s.th[t]);
    hide Errno, SetErrno;
  }

  // ---- One thread at a time ----

  predicate OthersOutside(s: System, t: Tid) {
    forall u | u in s.th && u != t :: !Inside(s.th[u])
  }

  /** No thread makes a system call while another one is inside. */
  ghost predicate Serial(s: System, es: seq<Event>)
    decreases |es|
  {
    if es == [] then true
    else
      var init, e := Run(s, es[..|es| - 1]), es[|es| - 1];
      Serial(s, es[..|es| - 1]) && (e.Step? && Busy(init, e.t) ==> OthersOutside(init, e.t))
  }

  /** The condition of HomeRestored, as the thread remembers it. */
  predicate ComesBack(k: Proc, x: Thread) {
    x.own0.Some? && ((x.got && x.own0.value in k.searchable) || x.early || x.target == x.own0.value)
  }

  /** Where the process is while a thread is alone inside. */
  predicate Where(k: Proc, x: Thread) {
    x.own0.Some? &&
    match x.pc
    case Clearing => k.cwd == x.own0.value
    case Changing => k.cwd == x.own0.value
    case Acting => k.cwd == x.target
    case Returning => k.cwd == if x.early then x.own0.value else x.target
    case Closing => k.cwd == x.own0.value <==> ComesBack(k, x)
    case _ => true
  }

  ghost predicate SerialInv(s: System) {
    WideInv(s) && forall t | t in s.th && Inside(s.th[t]) :: OthersOutside(s, t) && Where(s.k, s.th[t])
  }

  lemma WhereStep(s: System, t: Tid, dot: Answer, what: Call)
    requires WideInv(s) && Busy(s, t) && (Inside(s.th[t]) ==> Where(s.k, s.th[t]))
    ensures var s' := StepThread(s, t, dot, what);
            && t in s'.th && (Inside(s'.th[t]) ==> Where(s'.k, s'.th[t]))
            && (Inside(s.th[t]) && s'.th[t].pc == Done ==>
               s'.th[t].own0.Some? && (s'.k.cwd == s'.th[t].own0.value <==> ComesBack(s'.k, s'.th[t])))
  {
    assert WideOk(s.k, t, s.th[t]);
    StepMoves(s, t, dot, what);
    hide Errno, SetErrno;
  }

  lemma SerialStep(s: System, t: Tid, dot: Answer, what: Call)
    requires SerialInv(s) && Busy(s, t) && OthersOutside(s, t)
    ensures SerialInv(StepThread(s, t, dot, what))
  {
    hide StepThread, Where, WideInv, Inside;
    WhereStep(s, t, dot, what);
    WideFrame(s, t, dot, what) by {
      WideVersion(s);
    }
    WideStep(s, t, dot, what);
  }

  lemma WideVersion(s: System)
    requires WideInv(s)
    ensures s.v.ProcessWide?
  {}

  lemma SerialEnter(s: System, t: Tid, fd: int, path: string)
    requires SerialInv(s)
    ensures SerialInv(Do(s, Enter(t, fd, path)))
  {
    hide WideInv, Where, NeedsChdir;
    WideEnter(s, t, fd, path);
    var s' := Do(s, Enter(t, fd, path));
    forall u | u in s'.th && Inside(s'.th[u])
      ensures OthersOutside(s', u) && Where(s'.k, s'.th[u])
    {
      assert u in s.th && s'.th[u] == s.th[u];
    }
  }

  lemma SerialElsewhere(s: System, k: Proc)
    requires SerialInv(s) && Harmless(s, k)
    ensures SerialInv(s.(k := k))
  {
    hide WideInv, Inside;
    WideElsewhere(s, k);
    WideVersion(s);
    var s' := s.(k := k);
    forall u | u in s'.th && Inside(s'.th[u])
      ensures OthersOutside(s', u) && Where(k, s'.th[u])
    {
      assert u in s.th && Inside(s.th[u]);
      assert k.cwd == s.k.cwd;
    }
  }

  lemma {:induction false} AlwaysSerial(s: System, es: seq<Event>)
    requires WideStart(s) && Serial(s, es)
    ensures SerialInv(Run(s, es))
    decreases |es|
  {
    hide SerialInv, OthersOutside, StepThread, Harmless;
    if es == [] {
      WideStartInv(s);
      NobodyInside(s);
    } else {
      var init, e := es[..|es| - 1], es[|es| - 1];
      AlwaysSerial(s, init);
      var r := Run(s, init);
      match e
      case Enter(t, fd, path) => SerialEnter(r, t, fd, path);
      case Step(t, dot, what) =>
        if Busy(r, t) {
          SerialStep(r, t, dot, what);
        } else if t in r.th {
          DoneStays(r, t, dot, what);
        }
      case Elsewhere(k) =>
        if Harmless(r, k) {
          SerialElsewhere(r, k);
        }
    }
  }

  lemma NobodyInside(s: System)
    requires WideInv(s) && s.th == map[]
    ensures SerialInv(s)
  {}

  /**
   Over every run in which no thread makes a system call while another one is inside: at the exit of a thread the
   process is where it was at the thread's open(".") exactly if that worked and the directory can be entered again, or
   the thread did not get away from it. errno is as the failing step left it, and the saved descriptor is closed.
   */
  lemma SerialExit(s0: System, es: seq<Event>, t: Tid, dot: Answer, what: Call)
    requires WideStart(s0) && Serial(s0, es)
    requires var s := Run(s0, es); Busy(s, t) && Inside(s.th[t]) && StepThread(s, t, dot, what).th[t].pc == Done
    ensures var s' := StepThread(Run(s0, es), t, dot, what);
            var x := s'.th[t];
            && x.own0.Some?
            && (s'.k.cwd == x.own0.value <==>
                  (x.got && x.own0.value in s'.k.searchable) || x.early || x.target == x.own0.value)
            && (x.early || x.r < 0 ==> Errno(s'.k, t) == x.err)
            && (Holds(Run(s0, es).th[t]) ==> Run(s0, es).th[t].saved !in s'.k.fds)
  {
    hide Run, ComesBack, Errno, Where, StepThread, Inside;
    AlwaysSerial(s0, es);
    WhereStep(Run(s0, es), t, dot, what);
    WideOwn(Run(s0, es), t, dot, what);
    ComesBackIs(StepThread(Run(s0, es), t, dot, what).k, StepThread(Run(s0, es), t, dot, what).th[t]);
  }

  lemma ComesBackIs(k: Proc, x: Thread)
    requires x.own0.Some?
    ensures ComesBack(k, x) <==> (x.got && x.own0.value in k.searchable) || x.early || x.target == x.own0.value
  {}

  // ---- Overlapping calls ----

  /** A thread is in the directory that it went to. */
  predicate Away(x: Thread) {
    NeedsChdir(x.fd, x.path) && (x.pc == Acting || (x.pc == Returning && !x.early))
  }

  ghost predicate SomeoneAway(s: System) {
    exists t | t in s.th :: Away(s.th[t])
  }

  /** The directory from which the last thread to go back had started; that of the process at first. */
  ghost function LastStart(s: System, es: seq<Event>): Dir
    decreases |es|
  {
    if es == [] then s.k.cwd
    else
      var r, e := Run(s, es[..|es| - 1]), es[|es| - 1];
      if e.Step? && e.t in r.th && r.th[e.t].pc == Returning && r.th[e.t].own0.Some? then r.th[e.t].own0.value
      else LastStart(s, es[..|es| - 1])
  }

  /** Nothing but such calls happens, every open(".") works, and every directory can be entered again. */
  ghost predicate Smooth(s: System, es: seq<Event>)
    decreases |es|
  {
    if es == [] then s.k.cwd in s.k.searchable
    else
      var r, e := Run(s, es[..|es| - 1]), es[|es| - 1];
      && Smooth(s, es[..|es| - 1]) && !e.Elsewhere?
      && (e.Step? && e.t in r.th && r.th[e.t].pc == Opening ==> OpenWorks(r.k, e.dot))
  }

  /** Everybody's way back can be walked. */
  ghost predicate WaysOpen(s: System) {
    && s.k.cwd in s.k.searchable
    && forall t | Busy(s, t) && Inside(s.th[t]) ::
         s.th[t].got && s.th[t].own0.Some? && s.th[t].own0.value in s.k.searchable
  }

  lemma WaysStep(s: System, t: Tid, dot: Answer, what: Call)
    requires WideInv(s) && WaysOpen(s) && Busy(s, t) && (s.th[t].pc == Opening ==> OpenWorks(s.k, dot))
    ensures var s' := StepThread(s, t, dot, what);
            && t in s'.th && s'.k.cwd in s'.k.searchable
            && (Inside(s'.th[t]) ==> s'.th[t].got && s'.th[t].own0.Some? && s'.th[t].own0.value in s'.k.searchable)
            && (s.th[t].pc == Returning ==> s.th[t].own0.Some? && s'.k.cwd == s.th[t].own0.value)
            && (s.th[t].pc != Returning && !Away(s'.th[t]) ==> s'.k.cwd == s.k.cwd)
            && (Away(s.th[t]) && s.th[t].pc != Returning ==> Away(s'.th[t]))
  {
    assert WideOk(s.k, t, s.th[t]);
    StepMoves(s, t, dot, what);
    hide Errno, SetErrno;
  }

  lemma OverlapStep(s: System, t: Tid, dot: Answer, what: Call, last: Dir)
    requires WideInv(s) && WaysOpen(s) && Busy(s, t) && (s.th[t].pc == Opening ==> OpenWorks(s.k, dot))
    requires SomeoneAway(s) || s.k.cwd == last
    ensures var s', x := StepThread(s, t, dot, what), s.th[t];
            && WaysOpen(s')
            && (SomeoneAway(s') || s'.k.cwd == if x.pc == Returning && x.own0.Some? then x.own0.value else last)
  {
    hide StepThread, WideInv, Inside, Away;
    var s' := StepThread(s, t, dot, what);
    WideVersion(s);
    WideFrame(s, t, dot, what);
    WaysStep(s, t, dot, what);
    InsideReturning(s.th[t]);
    forall u | Busy(s', u) && Inside(s'.th[u])
      ensures s'.th[u].got && s'.th[u].own0.Some? && s'.th[u].own0.value in s'.k.searchable
    {
      if u != t {
        assert Busy(s, u) && Inside(s.th[u]);
      }
    }
    if s.th[t].pc != Returning && SomeoneAway(s) {
      var u :| u in s.th && Away(s.th[u]);
      assert Away(s'.th[u]);
    }
  }

  lemma InsideReturning(x: Thread)
    ensures x.pc == Returning && NeedsChdir(x.fd, x.path) ==> Inside(x)
  {}

  lemma {:induction false} Overlapping(s: System, es: seq<Event>)
    requires WideStart(s) && Smooth(s, es)
    ensures WaysOpen(Run(s, es)) && (SomeoneAway(Run(s, es)) || Run(s, es).k.cwd == LastStart(s, es))
    decreases |es|
  {
    hide StepThread, WaysOpen, SomeoneAway, WideInv;
    if es == [] {
      AllHome(s);
    } else {
      var init, e := es[..|es| - 1], es[|es| - 1];
      Overlapping(s, init);
      AlwaysWide(s, init);
      var r := Run(s, init);
      if e.Enter? {
        EnterStaysHome(r, e.t, e.fd, e.path, LastStart(s, init));
      } else if Busy(r, e.t) {
        OverlapStep(r, e.t, e.dot, e.what, LastStart(s, init));
      } else if e.t in r.th {
        DoneStays(r, e.t, e.dot, e.what);
      }
    }
  }

  lemma AllHome(s: System)
    requires s.th == map[] && s.k.cwd in s.k.searchable
    ensures WaysOpen(s)
  {}

  lemma EnterStaysHome(s: System, t: Tid, fd: int, path: string, last: Dir)
    requires WaysOpen(s) && (SomeoneAway(s) || s.k.cwd == last)
    ensures var s' := Do(s, Enter(t, fd, path)); WaysOpen(s') && (SomeoneAway(s') || s'.k.cwd == last)
  {
    hide NeedsChdir;
    var s' := Do(s, Enter(t, fd, path));
    if SomeoneAway(s) {
      var u :| u in s.th && Away(s.th[u]);
      assert u in s'.th && s'.th[u] == s.th[u];
    }
    forall u | Busy(s', u) && Inside(s'.th[u])
      ensures s'.th[u].got && s'.th[u].own0.Some? && s'.th[u].own0.value in s'.k.searchable
    {
      assert Busy(s, u) && s'.th[u] == s.th[u];
    }
  }

  /**
   Over every such run, overlapping or not: when no thread is away any more, the process is where it was at first
   exactly if the last thread to go back had started from there.
   */
  lemma OverlapExact(s: System, es: seq<Event>)
    requires WideStart(s) && Smooth(s, es) && !SomeoneAway(Run(s, es))
    ensures Run(s, es).k.cwd == s.k.cwd <==> LastStart(s, es) == s.k.cwd
  {
    Overlapping(s, es);
  }

  /** Every thread inside goes back to `d`. */
  predicate AllBackTo(s: System, d: Dir) {
    forall t | t in s.th && Inside(s.th[t]) :: s.th[t].own0 == Some(d)
  }

  lemma StepRemembers(s: System, t: Tid, dot: Answer, what: Call)
    requires WideInv(s) && Busy(s, t)
    ensures var s' := StepThread(s, t, dot, what);
            && t in s'.th && s'.th[t].own0 == (if s.th[t].pc == Opening then Some(s.k.cwd) else s.th[t].own0)
            && (Inside(s'.th[t]) && s.th[t].pc != Opening ==> Inside(s.th[t]))
            && (s.th[t].pc == Returning ==> Inside(s.th[t]))
  {
    assert WideOk(s.k, t, s.th[t]);
    hide NeedsChdir, OpenDot, BestFchdir, Close, Perform, Errno;
  }

  lemma NobodyAway(s: System, t: Tid)
    requires OthersOutside(s, t) && t in s.th && s.th[t].pc == Opening
    ensures !SomeoneAway(s)
  {}

  lemma BackToStep(s: System, t: Tid, dot: Answer, what: Call, d: Dir)
    requires WideInv(s) && Busy(s, t) && OthersOutside(s, t) && AllBackTo(s, d) &&
             (s.th[t].pc == Opening ==> s.k.cwd == d)
    ensures AllBackTo(StepThread(s, t, dot, what), d)
    ensures s.th[t].pc == Returning ==> s.th[t].own0 == Some(d)
  {
    hide StepThread, WideInv, Inside;
    WideVersion(s);
    WideFrame(s, t, dot, what);
    StepRemembers(s, t, dot, what);
  }

  /** One thread at a time, and everything smooth: whenever no thread is away, the process is where it was at first. */
  lemma {:induction false} SerialReturns(s: System, es: seq<Event>)
    requires WideStart(s) && Smooth(s, es) && Serial(s, es)
    ensures AllBackTo(Run(s, es), s.k.cwd) && LastStart(s, es) == s.k.cwd
    ensures !SomeoneAway(Run(s, es)) ==> Run(s, es).k.cwd == s.k.cwd
    decreases |es|
  {
    hide StepThread, AllBackTo, SomeoneAway, WideInv, OthersOutside, WaysOpen;
    Overlapping(s, es);
    if es == [] {
      NobodyBack(s);
    } else {
      var init, e := es[..|es| - 1], es[|es| - 1];
      SerialReturns(s, init);
      Overlapping(s, init);
      AlwaysWide(s, init);
      var r := Run(s, init);
      if e.Enter? {
        EnterBackTo(r, e.t, e.fd, e.path, s.k.cwd);
      } else if Busy(r, e.t) {
        if r.th[e.t].pc == Opening {
          NobodyAway(r, e.t);
        }
        BackToStep(r, e.t, e.dot, e.what, s.k.cwd);
      } else if e.t in r.th {
        DoneStays(r, e.t, e.dot, e.what);
      }
    }
  }

  lemma NobodyBack(s: System)
    requires s.th == map[]
    ensures AllBackTo(s, s.k.cwd)
  {}

  lemma EnterBackTo(s: System, t: Tid, fd: int, path: string, d: Dir)
    requires AllBackTo(s, d)
    ensures AllBackTo(Do(s, Enter(t, fd, path)), d)
  {
    hide NeedsChdir;
  }

  // ---- A run in which two calls overlap ----

  // Two calls that overlap in time on 10.4; the second saves the directory that the first has just entered.

  const NOP: Call := _ => Effect(0, 0, map[])
  const BEFORE: System :=
    System(ProcessWide, Proc(0, map[], map[10 := Directory(1, 0, false), 11 := Directory(2, 0, false)], map[],
      {0, 1, 2}), map[], {})
  const OPENS_FIRST: seq<Event> := [Enter(1, 10, "f"), Enter(2, 11, "f"), Step(1, Opened(20), NOP),
    Step(1, Opened(20), NOP)]
  const OPENS_SECOND: seq<Event> := [Step(1, Opened(20), NOP), Step(2, Opened(21), NOP), Step(2, Opened(21), NOP)]
  const BACK_FIRST: seq<Event> := [Step(1, Opened(20), NOP), Step(1, Opened(20), NOP), Step(1, Opened(20), NOP)]
  const BACK_SECOND: seq<Event> := [Step(2, Opened(21), NOP), Step(2, Opened(21), NOP), Step(2, Opened(21), NOP),
    Step(2, Opened(21), NOP)]

  lemma RunNext(s: System, es: seq<Event>, i: nat)
    requires i < |es|
    ensures Run(s, es[..i + 1]) == Do(Run(s, es[..i]), es[i])
  {
    assert es[..i + 1][..i] == es[..i];
  }

  lemma {:induction false} RunAppend(s: System, a: seq<Event>, b: seq<Event>)
    ensures Run(s, a + b) == Run(Run(s, a), b)
    decreases |b|
  {
    hide Do;
    if b == [] {
      assert a + b == a;
    } else {
      var init := b[..|b| - 1];
      assert (a + b)[..|a + b| - 1] == a + init;
      RunAppend(s, a, init);
    }
  }

  predicate At(s: System, t: Tid, pc: Pc, fd: int, saved: int) {
    && t in s.th && s.th[t].pc == pc && !s.th[t].early
    && s.th[t].fd == fd && s.th[t].path == "f" && s.th[t].saved == saved
  }

  predicate Open(s: System, fd: int, dir: Dir) {
    fd in s.k.fds && s.k.fds[fd] == Directory(dir, 0, false)
  }

  predicate Process(s: System, cwd: Dir) {
    s.v.ProcessWide? && s.k.cwd == cwd && s.k.searchable == {0, 1, 2} && s.k.own == map[]
  }

  lemma FirstOpens()
    ensures var s := Run(BEFORE, OPENS_FIRST);
            && Process(s, 0) && Open(s, 10, 1) && Open(s, 11, 2) && Open(s, 20, 0) && 21 !in s.k.fds
            && At(s, 1, Changing, 10, 20) && At(s, 2, Opening, 11, -1)
  {
    assert OPENS_FIRST[..0] == [];
    RunNext(BEFORE, OPENS_FIRST, 0);
    RunNext(BEFORE, OPENS_FIRST, 1);
    RunNext(BEFORE, OPENS_FIRST, 2);
    RunNext(BEFORE, OPENS_FIRST, 3);
    assert OPENS_FIRST[..4] == OPENS_FIRST;
  }

  /** The second saves the directory that the first has just entered. */
  lemma SecondOpens(s: System)
    requires Process(s, 0) && Open(s, 10, 1) && Open(s, 11, 2) && Open(s, 20, 0) && 21 !in s.k.fds
    requires At(s, 1, Changing, 10, 20) && At(s, 2, Opening, 11, -1)
    ensures var e := Run(s, OPENS_SECOND);
            && Process(e, 1) && Open(e, 11, 2) && Open(e, 20, 0) && Open(e, 21, 1)
            && At(e, 1, Acting, 10, 20) && At(e, 2, Changing, 11, 21)
  {
    assert OPENS_SECOND[..0] == [];
    RunNext(s, OPENS_SECOND, 0);
    RunNext(s, OPENS_SECOND, 1);
    RunNext(s, OPENS_SECOND, 2);
    assert OPENS_SECOND[..3] == OPENS_SECOND;
  }

  lemma FirstReturns(s: System)
    requires Process(s, 1) && Open(s, 11, 2) && Open(s, 20, 0) && Open(s, 21, 1)
    requires At(s, 1, Acting, 10, 20) && At(s, 2, Changing, 11, 21)
    ensures var e := Run(s, BACK_FIRST);
            && Process(e, 0) && Open(e, 11, 2) && Open(e, 21, 1)
            && At(e, 1, Done, 10, 20) && At(e, 2, Changing, 11, 21)
  {
    assert BACK_FIRST[..0] == [];
    RunNext(s, BACK_FIRST, 0);
    RunNext(s, BACK_FIRST, 1);
    RunNext(s, BACK_FIRST, 2);
    assert BACK_FIRST[..3] == BACK_FIRST;
  }

  lemma SecondActs(s: System)
    requires Process(s, 0) && Open(s, 11, 2) && Open(s, 21, 1)
    requires At(s, 1, Done, 10, 20) && At(s, 2, Changing, 11, 21)
    ensures var e := Run(s, BACK_SECOND[..2]);
            Process(e, 2) && Open(e, 21, 1) && At(e, 1, Done, 10, 20) && At(e, 2, Returning, 11, 21)
  {
    assert BACK_SECOND[..0] == [];
    RunNext(s, BACK_SECOND, 0);
    RunNext(s, BACK_SECOND, 1);
  }

  lemma SecondReturns(s: System)
    requires Process(s, 0) && Open(s, 11, 2) && Open(s, 21, 1)
    requires At(s, 1, Done, 10, 20) && At(s, 2, Changing, 11, 21)
    ensures var e := Run(s, BACK_SECOND); Process(e, 1) && At(e, 1, Done, 10, 20) && At(e, 2, Done, 11, 21)
  {
    SecondActs(s);
    RunNext(s, BACK_SECOND, 2);
    RunNext(s, BACK_SECOND, 3);
    hide Run;
    assert BACK_SECOND[..4] == BACK_SECOND;
  }

  /** So on 10.4 restoring works for one thread at a time only: here both calls succeed and the process has moved. */
  lemma ProcessWideOverlaps()
    ensures var e := Run(BEFORE, OPENS_FIRST + OPENS_SECOND + BACK_FIRST + BACK_SECOND);
            && 1 in e.th && e.th[1].pc == Done && !e.th[1].early
            && 2 in e.th && e.th[2].pc == Done && !e.th[2].early
            && BEFORE.k.cwd == 0 && e.k.cwd == 1
  {
    hide Run, Open;
    RunAppend(BEFORE, OPENS_FIRST, OPENS_SECOND);
    RunAppend(BEFORE, OPENS_FIRST + OPENS_SECOND, BACK_FIRST);
    RunAppend(BEFORE, OPENS_FIRST + OPENS_SECOND + BACK_FIRST, BACK_SECOND);
    FirstOpens();
    SecondOpens(Run(BEFORE, OPENS_FIRST));
    FirstReturns(Run(BEFORE, OPENS_FIRST + OPENS_SECOND));
    SecondReturns(Run(BEFORE, OPENS_FIRST + OPENS_SECOND + BACK_FIRST));
  }
}
