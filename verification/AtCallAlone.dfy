/** The _ATCALL sequence one system call at a time, by a thread that nobody interrupts, is the sequence run at once. */
module AtCallAlone {
  import opened Kernel
  import opened AtCall
  import opened AtCallThreads

  function Rank(pc: Pc): nat {
    match pc
    case Opening => 7
    case Clearing => 6
    case Dropping => 5
    case Changing => 4
    case Acting => 3
    case Returning => 2
    case Closing => 1
    case Done => 0
  }

  lemma StepOnward(s: System, t: Tid, dot: Answer, what: Call)
    requires Busy(s, t)
    ensures var s' := StepThread(s, t, dot, what);
            && t in s'.th && Rank(s'.th[t].pc) < Rank(s.th[t].pc) && s'.v == s.v
            && s'.th[t].fd == s.th[t].fd && s'.th[t].path == s.th[t].path
  {
    hide NeedsChdir, OpenDot, BestFchdir, Close, Perform, Home, NewFds;
  }

  /** All remaining system calls of the thread `t`, and of no other. */
  function ToDone(s: System, t: Tid, dot: Answer, what: Call): System
    requires t in s.th
    decreases Rank(s.th[t].pc)
  {
    if s.th[t].pc == Done then s
    else
      StepOnward(s, t, dot, what);
      ToDone(StepThread(s, t, dot, what), t, dot, what)
  }

  /** What the thread leaves when it is done. */
  function Left(s: System, t: Tid, dot: Answer, what: Call): Outcome
    requires t in s.th
  {
    var e := ToDone(s, t, dot, what);
    if t in e.th then Outcome(e.k, e.th[t].early, e.th[t].r) else Outcome(e.k, false, 0)
  }

  lemma LeftStep(s: System, t: Tid, dot: Answer, what: Call)
    requires Busy(s, t)
    ensures var s' := StepThread(s, t, dot, what); t in s'.th && Left(s, t, dot, what) == Left(s', t, dot, what)
  {
    hide StepThread;
    StepOnward(s, t, dot, what);
  }

  lemma LeftDone(s: System, t: Tid, dot: Answer, what: Call)
    requires t in s.th && s.th[t].pc == Done
    ensures Left(s, t, dot, what) == Outcome(s.k, s.th[t].early, s.th[t].r)
  {}

  lemma ProtectedTwice(k: Proc, t: Tid, k1: Proc)
    ensures Errno(Protected(k, t, k1), t) == Errno(k, t)
  {}

  lemma FromReturning(s: System, t: Tid, dot: Answer, what: Call)
    requires t in s.th && s.th[t].pc == Returning
    ensures Left(s, t, dot, what) == Outcome(WentBack(s.v, s.k, t, s.th[t].saved), s.th[t].early, s.th[t].r)
  {
    hide Left, BestFchdir, Close, Errno, SetErrno;
    LeftStep(s, t, dot, what);
    var s1 := StepThread(s, t, dot, what);
    if s.th[t].saved == -1 {
      LeftDone(s1, t, dot, what);
    } else {
      ProtectedTwice(s.k, t, BestFchdir(s.v, s.k, t, s.th[t].saved).k);
      LeftStep(s1, t, dot, what);
      LeftDone(StepThread(s1, t, dot, what), t, dot, what);
    }
  }

  lemma FromActing(s: System, t: Tid, dot: Answer, what: Call)
    requires t in s.th && s.th[t].pc == Acting
    ensures var x, p := s.th[t], Perform(s.k, t, what(Cwd(s.k, t)));
            Left(s, t, dot, what)
            == Outcome(if NeedsChdir(x.fd, x.path) then WentBack(s.v, p.k, t, x.saved) else p.k, x.early, p.r)
  {
    hide Left, WentBack, Perform, Cwd, NeedsChdir;
    LeftStep(s, t, dot, what);
    var s1 := StepThread(s, t, dot, what);
    if NeedsChdir(s.th[t].fd, s.th[t].path) {
      FromReturning(s1, t, dot, what);
    } else {
      LeftDone(s1, t, dot, what);
    }
  }

  /** What the sequence leaves when `k` is the state before it goes to the descriptor, and `saved` the way back. */
  function AfterChange(v: Version, k: Proc, t: Tid, fd: int, saved: int, what: Call): Outcome {
    var c := BestFchdir(v, k, t, fd);
    if c.r < 0 then Outcome(WentBack(v, c.k, t, saved), true, -1)
    else
      var p := Perform(c.k, t, what(Cwd(c.k, t)));
      Outcome(WentBack(v, p.k, t, saved), false, p.r)
  }

  lemma FromChanging(s: System, t: Tid, dot: Answer, what: Call)
    requires t in s.th && s.th[t].pc == Changing && !s.th[t].early && NeedsChdir(s.th[t].fd, s.th[t].path)
    ensures Left(s, t, dot, what) == AfterChange(s.v, s.k, t, s.th[t].fd, s.th[t].saved, what)
  {
    hide Left, WentBack, Perform, Cwd, NeedsChdir, BestFchdir;
    LeftStep(s, t, dot, what);
    var s1 := StepThread(s, t, dot, what);
    if s1.th[t].pc == Returning {
      FromReturning(s1, t, dot, what);
    } else {
      FromActing(s1, t, dot, what);
    }
  }

  lemma FromClearing(s: System, t: Tid, dot: Answer, what: Call)
    requires t in s.th && s.th[t].pc == Clearing && !s.th[t].early && NeedsChdir(s.th[t].fd, s.th[t].path)
    ensures var x, b := s.th[t], BestFchdir(s.v, s.k, t, -1);
            var saved := if b.r < 0 && x.saved != -1 then Ret(Close(b.k, t, x.saved).k, -1) else Ret(b.k, x.saved);
            Left(s, t, dot, what) == AfterChange(s.v, saved.k, t, x.fd, saved.r, what)
  {
    hide Left, AfterChange, NeedsChdir, BestFchdir, Close;
    LeftStep(s, t, dot, what);
    var s1 := StepThread(s, t, dot, what);
    if s1.th[t].pc == Dropping {
      LeftStep(s1, t, dot, what);
      FromChanging(StepThread(s1, t, dot, what), t, dot, what);
    } else {
      FromChanging(s1, t, dot, what);
    }
  }

  lemma OutcomeIs(v: Version, k: Proc, t: Tid, fd: int, path: string, dot: Answer, what: Call)
    requires NeedsChdir(fd, path)
    ensures var s := Saved(v, k, t, dot);
            AtCallOutcome(v, k, t, fd, path, dot, what) == AfterChange(v, s.k, t, fd, s.r, what)
  {}

  lemma NothingNeeded(fd: int, path: string)
    requires !NeedsChdir(fd, path)
    ensures fd == -2 || (path != "" && path[0] == '/')
  {}

  /** The two descriptions of the sequence agree, for both versions: what it leaves, and what it returns. */
  lemma AloneIsAtOnce(s: System, t: Tid, dot: Answer, what: Call)
    requires t in s.th && !s.th[t].early
    requires s.th[t].pc == if NeedsChdir(s.th[t].fd, s.th[t].path) then Opening else Acting
    ensures var x, e := s.th[t], ToDone(s, t, dot, what);
            && t in e.th && e.th[t].pc == Done
            && Outcome(e.k, e.th[t].early, e.th[t].r) == AtCallOutcome(s.v, s.k, t, x.fd, x.path, dot, what)
  {
    hide NeedsChdir, OpenDot, BestFchdir, Close, AfterChange, Perform, WentBack, ToDone, AtCallOutcome;
    var x := s.th[t];
    EndsDone(s, t, dot, what);
    if NeedsChdir(x.fd, x.path) {
      LeftStep(s, t, dot, what);
      FromClearing(StepThread(s, t, dot, what), t, dot, what);
      OutcomeIs(s.v, s.k, t, x.fd, x.path, dot, what);
    } else {
      FromActing(s, t, dot, what);
      NothingNeeded(x.fd, x.path);
      NoChdir(s.v, s.k, t, x.fd, x.path, dot, what);
    }
  }

  lemma {:induction false} EndsDone(s: System, t: Tid, dot: Answer, what: Call)
    requires t in s.th
    ensures var e := ToDone(s, t, dot, what); t in e.th && e.th[t].pc == Done
    decreases Rank(s.th[t].pc)
  {
    hide StepThread;
    if s.th[t].pc != Done {
      StepOnward(s, t, dot, what);
      EndsDone(StepThread(s, t, dot, what), t, dot, what);
    }
  }
}
