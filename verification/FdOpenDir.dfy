/** fdopendir: a directory stream on a descriptor that is already open. */
module FdOpenDir {
  import opened Wrappers
  import opened Kernel
  import opened AtCall

  /** DIR, of which only the descriptor matters. */
  class Stream {
    var fd: int

    constructor (fd: int)
      ensures this.fd == fd
    {
      this.fd := fd;
    }
  }

  /** opendir("."): opens the directory in which it is called. */
  function OpenDirectory(a: Answer): Call {
    (d: Dir) =>
      match a
      case Opened(n) => Effect(n, 0, map[n := Directory(d, 0, true)])
      case Refused(e) => Effect(-1, e, map[])
  }

  /** rewinddir() on a stream whose descriptor is `fd`. */
  function Rewound(k: Proc, fd: int): Proc {
    if fd in k.fds && k.fds[fd].Directory? then k.(fds := k.fds[fd := k.fds[fd].(pos := 0)]) else k
  }

  /** fcntl(fd, F_SETFD, FD_CLOEXEC) */
  function ClosedOnExec(k: Proc, fd: int): Proc {
    if fd in k.fds && k.fds[fd].Directory? then k.(fds := k.fds[fd := k.fds[fd].(cloexec := true)]) else k
  }

  datatype Opening = Opening(k: Proc, stream: Option<int>)

  /** The whole call on values; `dot` and `dir` answer the two opens. */
  function Outcome(v: Version, k: Proc, t: Tid, fd: int, dot: Answer, dir: Answer): Opening {
    if fd !in k.fds then Opening(SetErrno(k, t, EBADF), None)
    else if !k.fds[fd].Directory? then Opening(SetErrno(k, t, ENOTDIR), None)
    else
      var o := AtCallOutcome(v, k, t, fd, ".", dot, OpenDirectory(dir));
      if o.early || o.r < 0 then Opening(o.k, None)
      else Opening(ClosedOnExec(Rewound(Close(o.k, t, o.r).k, fd), fd), Some(fd))
  }

  /** fstat() and S_ISDIR: whether `fd` is open, and on a directory. */
  method Stat(p: Process, fd: int) returns (err: int, directory: bool)
    modifies p
    ensures err == (if fd in old(p.k).fds then 0 else -1)
    ensures p.k == if fd in old(p.k).fds then old(p.k) else SetErrno(old(p.k), p.t, EBADF)
    ensures err == 0 ==> directory == old(p.k).fds[fd].Directory?
  {
    err, directory := 0, false;
    if fd in p.k.fds {
      directory := p.k.fds[fd].Directory?;
    } else {
      p.k, err := SetErrno(p.k, p.t, EBADF), -1;
    }
  }

  /** fdopendir_internal */
  method FdOpenDir(p: Process, fd: int, dot: Answer, dir: Answer) returns (stream: Stream?)
    modifies p
    ensures var o := Outcome(p.v, old(p.k), p.t, fd, dot, dir);
            p.k == o.k && (stream == null <==> o.stream == None) &&
              (stream != null ==> fresh(stream) && Some(stream.fd) == o.stream)
  {
    hide AtCallOutcome;
    var err, directory := Stat(p, fd);
    if err < 0 {
      return null;
    }
    if !directory {
      p.k := SetErrno(p.k, p.t, ENOTDIR);
      return null;
    }
    var early, r := p.Run(fd, ".", dot, OpenDirectory(dir));
    if early || r < 0 {
      return null;
    }
    stream := new Stream(r);
    var closed := p.CloseFd(stream.fd);
    stream.fd := fd;
    p.k := Rewound(p.k, stream.fd);
    p.k := ClosedOnExec(p.k, fd);
  }

  /** How the system answers: descriptors are non-negative, and the two opens get unused, different ones. */
  ghost predicate Answers(v: Version, k: Proc, dot: Answer, dir: Answer) {
    && (forall fd | fd in k.fds :: fd >= 0)
    && (dir.Opened? ==> dir.fd >= 0 && dir.fd !in k.fds && (dot.Opened? ==> dir.fd != dot.fd))
    && (dir.Refused? ==> dir.error != 0)
    && (v.ProcessWide? ==> k.own == map[])
  }

  /** What must be in order for the stream to be opened, as the errno of the first step to fail; 0 if none does. */
  function Failure(k: Proc, fd: int, dir: Answer): int {
    if ChdirError(k, fd) != 0 then ChdirError(k, fd)
    else if dir.Refused? then dir.error else 0
  }

  lemma NotMistaken(v: Version, k: Proc, t: Tid, fd: int, dot: Answer)
    requires fd in k.fds && fd >= 0
    ensures !Mistaken(v, k, t, fd, dot)
  {}

  lemma AnswersAreSane(v: Version, k: Proc, dot: Answer, dir: Answer)
    requires Answers(v, k, dot, dir)
    ensures Sane(v, k, dot, OpenDirectory(dir))
  {}

  /**
   The descriptor is handed over: a stream is opened exactly when no step fails, on the given descriptor, which then is
   at its start and closed on exec; no other descriptor appears or goes. Otherwise errno tells the step that failed
   and all descriptors are as they were.
   */
  lemma HandedOver(v: Version, k: Proc, t: Tid, fd: int, dot: Answer, dir: Answer)
    requires Answers(v, k, dot, dir)
    ensures var o, why := Outcome(v, k, t, fd, dot, dir), Failure(k, fd, dir);
            if why == 0 then o.stream == Some(fd) && o.k.fds == k.fds[fd := Directory(k.fds[fd].dir, 0, true)]
            else o.stream == None && o.k.fds == k.fds && Errno(o.k, t) == why
  {
    hide AtCallOutcome, Mistaken, Sane, NeedsChdir;
    if fd in k.fds && k.fds[fd].Directory? {
      assert NeedsChdir(fd, ".") by {
        PlainDot(fd);
      }
      AnswersAreSane(v, k, dot, dir);
      var o := AtCallOutcome(v, k, t, fd, ".", dot, OpenDirectory(dir));
      if ChdirError(k, fd) != 0 {
        NotMistaken(v, k, t, fd, dot);
        BadDescriptor(v, k, t, fd, ".", dot, OpenDirectory(dir));
      } else {
        GoodDescriptor(v, k, t, fd, ".", dot, OpenDirectory(dir));
        if dir.Opened? {
          Exchange(k, o.k.fds, fd, dir.fd);
        } else {
          assert o.k.fds == k.fds;
        }
      }
    }
  }

  lemma PlainDot(fd: int)
    requires fd >= 0
    ensures NeedsChdir(fd, ".")
  {}

  /** Opening a descriptor, closing it and resetting another leaves just the reset. */
  lemma Exchange(k: Proc, opn: map<int, File>, fd: int, n: int)
    requires fd in k.fds && k.fds[fd].Directory? && n !in k.fds && n >= 0
    requires opn == k.fds + map[n := Directory(k.fds[fd].dir, 0, true)]
    ensures (opn - {n})[fd := k.fds[fd].(pos := 0)][fd := k.fds[fd].(pos := 0, cloexec := true)]
         == k.fds[fd := Directory(k.fds[fd].dir, 0, true)]
  {
    assert opn - {n} == k.fds;
  }

  /** closedir() on the stream then closes the descriptor that was handed over, and nothing else is left behind. */
  lemma ThenClosed(v: Version, k: Proc, t: Tid, fd: int, dot: Answer, dir: Answer)
    requires Answers(v, k, dot, dir) && Failure(k, fd, dir) == 0
    ensures Close(Outcome(v, k, t, fd, dot, dir).k, t, fd).k.fds == k.fds - {fd}
  {
    hide Outcome;
    HandedOver(v, k, t, fd, dot, dir);
  }

  /** The steps after opendir() concern descriptors only. */
  lemma LastStepsSame(v: Version, k: Proc, a: Proc, t: Tid, r: int, fd: int)
    requires SameForOthers(v, k, a, t)
    ensures var b := ClosedOnExec(Rewound(Close(a, t, r).k, fd), fd);
            SameForOthers(v, k, b, t) && Home(v, b, t) == Home(v, a, t)
  {}

  lemma ErrnoSame(v: Version, k: Proc, t: Tid, e: int)
    ensures SameForOthers(v, k, SetErrno(k, t, e), t) && Home(v, SetErrno(k, t, e), t) == Home(v, k, t)
  {}

  /** The working directory is given back on every way out, the early return inside _ATCALL included. */
  lemma HomeKept(v: Version, k: Proc, t: Tid, fd: int, dot: Answer, dir: Answer)
    requires Answers(v, k, dot, dir) && CanGoBack(v, k, t, dot)
    ensures var o := Outcome(v, k, t, fd, dot, dir);
            Home(v, o.k, t) == Home(v, k, t) && SameForOthers(v, k, o.k, t)
  {
    hide AtCallOutcome, Sane, NeedsChdir, CanGoBack, SameForOthers, Home, SetErrno, Rewound, Close, ClosedOnExec,
        Answers;
    if fd in k.fds && k.fds[fd].Directory? {
      var o := AtCallOutcome(v, k, t, fd, ".", dot, OpenDirectory(dir));
      AtHome(v, k, t, fd, dot, dir);
      LastStepsSame(v, k, o.k, t, o.r, fd);
    } else {
      ErrnoSame(v, k, t, EBADF);
      ErrnoSame(v, k, t, ENOTDIR);
    }
  }

  lemma AtHome(v: Version, k: Proc, t: Tid, fd: int, dot: Answer, dir: Answer)
    requires Answers(v, k, dot, dir) && CanGoBack(v, k, t, dot) && fd in k.fds
    ensures var o := AtCallOutcome(v, k, t, fd, ".", dot, OpenDirectory(dir));
            Home(v, o.k, t) == Home(v, k, t) && SameForOthers(v, k, o.k, t)
  {
    hide AtCallOutcome, Sane, NeedsChdir, CanGoBack, SameForOthers, Home;
    PlainDot(fd);
    AnswersAreSane(v, k, dot, dir);
    HomeRestored(v, k, t, fd, ".", dot, OpenDirectory(dir));
    OthersUnaffected(v, k, t, fd, ".", dot, OpenDirectory(dir));
  }
}
