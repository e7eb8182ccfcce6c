/** The part of the kernel that the *at() calls work on: working directories, descriptors and errno. */
module Kernel {
  import opened Wrappers

  type Dir = nat
  type Tid = nat

  const EBADF: int := 9
  const EACCES: int := 13
  const ENOTDIR: int := 20
  const EINVAL: int := 22
  const EMFILE: int := 24
  const AT_FDCWD: int := -2

  /** What a descriptor is open on; a directory stream keeps a read position. */
  datatype File = Directory(dir: Dir, pos: nat, cloexec: bool) | Other

  /**
   The process: its working directory, the threads that have one of their own, the descriptors,
   and every thread's errno. `searchable` are the directories that may be entered.
   */
  datatype Proc = Proc(cwd: Dir, own: map<Tid, Dir>, fds: map<int, File>, errno: map<Tid, int>, searchable: set<Dir>)

  function OwnCwd(k: Proc, t: Tid): Option<Dir> {
    if t in k.own then Some(k.own[t]) else None
  }

  /** The directory in which thread `t` resolves relative paths. */
  function Cwd(k: Proc, t: Tid): Dir {
    if t in k.own then k.own[t] else k.cwd
  }

  function Errno(k: Proc, t: Tid): int {
    if t in k.errno then k.errno[t] else 0
  }

  function SetErrno(k: Proc, t: Tid, e: int): Proc {
    k.(errno := k.errno[t := e])
  }

  /** A system call's effect and its return value. */
  datatype Ret = Ret(k: Proc, r: int)

  /** How the system answers an open(): with some unused descriptor, or with an error. */
  datatype Answer = Opened(fd: int) | Refused(error: int)

  /** open(".", O_RDONLY) */
  function OpenDot(k: Proc, t: Tid, a: Answer): Ret {
    match a
    case Opened(fd) =>
      if fd >= 0 && fd !in k.fds then Ret(k.(fds := k.fds[fd := Directory(Cwd(k, t), 0, false)]), fd)
      else Ret(SetErrno(k, t, EMFILE), -1)
    case Refused(e) => Ret(SetErrno(k, t, e), -1)
  }

  function OpenWorks(k: Proc, a: Answer): bool {
    a.Opened? && a.fd >= 0 && a.fd !in k.fds
  }

  function Close(k: Proc, t: Tid, fd: int): Ret {
    if fd in k.fds then Ret(k.(fds := k.fds - {fd}), 0) else Ret(SetErrno(k, t, EBADF), -1)
  }

  /** Why a descriptor cannot become a working directory; 0 if it can. */
  function ChdirError(k: Proc, fd: int): int {
    if fd !in k.fds then EBADF
    else if !k.fds[fd].Directory? then ENOTDIR
    else if k.fds[fd].dir !in k.searchable then EACCES
    else 0
  }

  /** pthread_fchdir_np: -1 takes the thread back to the process's directory, and fails if it is there already. */
  function PthreadFchdir(k: Proc, t: Tid, fd: int): Ret {
    if fd == -1 then
      if t in k.own then Ret(k.(own := k.own - {t}), 0) else Ret(SetErrno(k, t, EBADF), -1)
    else if ChdirError(k, fd) != 0 then Ret(SetErrno(k, t, ChdirError(k, fd)), -1)
    else Ret(k.(own := k.own[t := k.fds[fd].dir]), 0)
  }

  function Fchdir(k: Proc, t: Tid, fd: int): Ret {
    if ChdirError(k, fd) != 0 then Ret(SetErrno(k, t, ChdirError(k, fd)), -1)
    else Ret(k.(cwd := k.fds[fd].dir), 0)
  }

  /** The system: with per-thread working directories (10.5 on), or with only the process's (10.4). */
  datatype Version = PerThread | ProcessWide

  /** __mpls_best_fchdir. */
  function BestFchdir(v: Version, k: Proc, t: Tid, fd: int): Ret {
    match v
    case PerThread => PthreadFchdir(k, t, fd)
    case ProcessWide => if fd == -1 then Ret(k, 0) else Fchdir(k, t, fd)
  }

  /** The effect of the wrapped system call: its return value, errno if that is negative, and descriptors it opens. */
  datatype Effect = Effect(r: int, error: int, added: map<int, File>)

  function NewFds(k: Proc, e: Effect): (m: map<int, File>)
    ensures m.Keys !! k.fds.Keys
  {
    map fd | fd in e.added && fd !in k.fds && fd >= 0 :: e.added[fd]
  }

  function Perform(k: Proc, t: Tid, e: Effect): Ret {
    var k1 := k.(fds := k.fds + NewFds(k, e));
    Ret(if e.r < 0 then SetErrno(k1, t, e.error) else k1, e.r)
  }

  predicate Absolute(path: string) {
    |path| > 0 && path[0] == '/'
  }

  /** Whether the call has to change the working directory. */
  predicate NeedsChdir(fd: int, path: string) {
    fd != AT_FDCWD && !Absolute(path)
  }
}
