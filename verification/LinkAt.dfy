/** linkat and renameat: two paths, each relative to a directory of its own. */
module LinkAt {
  import opened Wrappers
  import opened Kernel
  import opened AtCall

  const PATH_MAX: nat := 1024
  const ENOENT: int := 2

  // ---- Paths ----

  /** What is found under a name in a directory: a directory to go on from, or the reason why there is none. */
  datatype Found = Found(d: Dir) | NotFound(error: int)

  /**
   The tree of names: looking up (symbolic links, "." and ".." included), the path that F_GETPATH
   gives for a directory, and the one it gives for a descriptor on something else, if it has one.
   */
  datatype Files = Files(root: Dir, lookup: (Dir, string) -> Found, path: Dir -> string, other: int -> Option<string>)

  /** At the start of a path, or behind a slash. */
  predicate Fresh(p: string) {
    p == "" || p[|p| - 1] == '/'
  }

  /** The next character continues the last name or starts a new one. */
  function AddChar(names: seq<string>, start: bool, c: char): (n: seq<string>)
    requires !start ==> names != []
    ensures c != '/' ==> n != []
    ensures |names| <= |n|
  {
    if c == '/' then names
    else if start then names + [[c]]
    else names[..|names| - 1] + [names[|names| - 1] + [c]]
  }

  /** The names between the slashes. */
  function Names(p: string): (n: seq<string>)
    ensures !Fresh(p) ==> n != []
    decreases |p|
  {
    if p == "" then [] else AddChar(Names(p[..|p| - 1]), Fresh(p[..|p| - 1]), p[|p| - 1])
  }

  function Walk(fs: Files, d: Dir, names: seq<string>): Found
    decreases |names|
  {
    if names == [] then Found(d)
    else
      match Walk(fs, d, names[..|names| - 1])
      case NotFound(e) => NotFound(e)
      case Found(p) => fs.lookup(p, names[|names| - 1])
  }

  /** Where a path leads: a name in a directory (with a slash behind it or not), a directory itself, or nowhere. */
  datatype Place = At(parent: Dir, name: string, slash: bool) | Itself(d: Dir) | Nowhere(error: int)

  function PlaceFrom(fs: Files, start: Dir, names: seq<string>, slash: bool): Place {
    if names == [] then Itself(start)
    else
      match Walk(fs, start, names[..|names| - 1])
      case NotFound(e) => Nowhere(e)
      case Found(p) => At(p, names[|names| - 1], slash)
  }

  function Resolve(fs: Files, cwd: Dir, p: string): Place {
    if p == "" then Nowhere(ENOENT)
    else PlaceFrom(fs, if Absolute(p) then fs.root else cwd, Names(p), p[|p| - 1] == '/')
  }

  /** strlcat(buf, s, PATH_MAX) */
  function Strlcat(buf: string, s: string): (r: string)
    ensures |buf| + |s| < PATH_MAX ==> r == buf + s
  {
    if |buf| >= PATH_MAX then buf
    else if |buf| + |s| < PATH_MAX then buf + s
    else (buf + s)[..PATH_MAX - 1]
  }

  function Joined(dir: string, relative: string): string {
    Strlcat(Strlcat(dir, "/"), relative)
  }

  predicate Fits(dir: string, relative: string) {
    |dir| + 1 + |relative| < PATH_MAX
  }

  // ---- The calls ----

  /** link() or rename(), by the places that its two paths lead to. */
  type Sys = (Place, Place) -> Effect

  function Doing(fs: Files, sys: Sys, oldpath: string, newpath: string): Call {
    (d: Dir) => sys(Resolve(fs, d, oldpath), Resolve(fs, d, newpath))
  }

  datatype Full = Full(k: Proc, path: Option<string>)

  /** fcntl(fd, F_GETPATH, buf) */
  function GetPath(fs: Files, k: Proc, t: Tid, fd: int): Full {
    if fd in k.fds && k.fds[fd].Directory? then Full(k, Some(fs.path(k.fds[fd].dir)))
    else if fd in k.fds && fs.other(fd).Some? then Full(k, fs.other(fd))
    else Full(SetErrno(k, t, EBADF), None)
  }

  function FullPathOutcome(fs: Files, k: Proc, t: Tid, dirfd: int, relative: string, dot: Answer): Full {
    var a := if dirfd == AT_FDCWD then OpenDot(k, t, dot) else Ret(k, dirfd);
    if dirfd == AT_FDCWD && a.r == -1 then Full(a.k, None)
    else
      var g := GetPath(fs, a.k, t, a.r);
      var k' := if dirfd == AT_FDCWD then Close(g.k, t, a.r).k else g.k;
      Full(k', if g.path.Some? then Some(Joined(g.path.value, relative)) else None)
  }

  /** _fullpathat */
  method FullPathAt(p: Process, fs: Files, dirfd: int, relative: string, dot: Answer) returns (ret: int, buf: string)
    modifies p
    ensures var f := FullPathOutcome(fs, old(p.k), p.t, dirfd, relative, dot);
            p.k == f.k && (ret == -1 <==> f.path == None) && (ret != -1 ==> f.path == Some(buf))
  {
    var cwd, fd := -1, dirfd;
    buf := "";
    if dirfd == AT_FDCWD {
      cwd := p.OpenCwd(dot);
      if cwd == -1 {
        return -1, buf;
      }
      fd := cwd;
    }
    var g := GetPath(fs, p.k, p.t, fd);
    p.k := g.k;
    ret := -1;
    if g.path.Some? {
      ret := 0;
      buf := Strlcat(g.path.value, "/");
      buf := Strlcat(buf, relative);
    }
    if cwd != -1 {
      var closed := p.CloseFd(cwd);
    }
  }

  /** Which of the two descriptors is used to resolve both paths, if one is enough. */
  function Single(olddirfd: int, oldpath: string, newdirfd: int, newpath: string): Option<(int, string)> {
    if Absolute(oldpath) then Some((newdirfd, newpath))
    else if Absolute(newpath) || olddirfd == newdirfd then Some((olddirfd, oldpath))
    else None
  }

  /** What renameat does, and linkat without flags. `dot` answers the first open("."), `dot2` the second. */
  function TwoOutcome(v: Version, fs: Files, k: Proc, t: Tid, sys: Sys, olddirfd: int, oldpath: string,
                      newdirfd: int, newpath: string, dot: Answer, dot2: Answer): Ret
  {
    var one := Single(olddirfd, oldpath, newdirfd, newpath);
    if one.Some? then
      var o := AtCallOutcome(v, k, t, one.value.0, one.value.1, dot, Doing(fs, sys, oldpath, newpath));
      Ret(o.k, o.r)
    else
      var f := FullPathOutcome(fs, k, t, olddirfd, oldpath, dot);
      if f.path == None then Ret(f.k, -1)
      else
        var g := FullPathOutcome(fs, f.k, t, newdirfd, newpath, dot2);
        if g.path == None then Ret(g.k, -1)
        else Perform(g.k, t, Doing(fs, sys, f.path.value, g.path.value)(Cwd(g.k, t)))
  }

  method RenameAt(p: Process, fs: Files, sys: Sys, olddirfd: int, oldpath: string, newdirfd: int, newpath: string,
                  dot: Answer, dot2: Answer) returns (ret: int)
    modifies p
    ensures Ret(p.k, ret) == TwoOutcome(p.v, fs, old(p.k), p.t, sys, olddirfd, oldpath, newdirfd, newpath, dot, dot2)
  {
    hide AtCallOutcome, FullPathOutcome, Perform;
    if Absolute(oldpath) {
      var early, r := p.Run(newdirfd, newpath, dot, Doing(fs, sys, oldpath, newpath));
      return r;
    }
    if Absolute(newpath) || olddirfd == newdirfd {
      var early, r := p.Run(olddirfd, oldpath, dot, Doing(fs, sys, oldpath, newpath));
      return r;
    }
    var r1, oldbuf := FullPathAt(p, fs, olddirfd, oldpath, dot);
    if r1 == -1 {
      return -1;
    }
    var r2, newbuf := FullPathAt(p, fs, newdirfd, newpath, dot2);
    if r2 == -1 {
      return -1;
    }
    ret := p.Act(Doing(fs, sys, oldbuf, newbuf));
  }

  method LinkAt(p: Process, fs: Files, sys: Sys, olddirfd: int, oldpath: string, newdirfd: int, newpath: string,
                flags: int, dot: Answer, dot2: Answer) returns (ret: int)
    modifies p
    ensures Ret(p.k, ret) ==
            if flags != 0 then Ret(SetErrno(old(p.k), p.t, 22), -1)
            else TwoOutcome(p.v, fs, old(p.k), p.t, sys, olddirfd, oldpath, newdirfd, newpath, dot, dot2)
  {
    if flags != 0 {
      p.k := SetErrno(p.k, p.t, EINVAL);
      return -1;
    }
    ret := RenameAt(p, fs, sys, olddirfd, oldpath, newdirfd, newpath, dot, dot2);
  }

  // ---- Names and walks ----

  lemma NamesStep(p: string, c: char)
    ensures Names(p + [c]) == AddChar(Names(p), Fresh(p), c)
  {
    assert (p + [c])[..|p|] == p;
  }

  lemma AddBehind(m: seq<string>, n: seq<string>, start: bool, c: char)
    requires !start ==> n != []
    ensures AddChar(m + n, start, c) == m + AddChar(n, start, c)
  {}

  lemma {:induction false} NamesJoin(a: string, b: string)
    ensures Names(a + "/" + b) == Names(a) + Names(b)
    decreases |b|
  {
    hide Names, AddChar;
    if b == "" {
      assert a + "/" + b == a + "/";
      NamesStep(a, '/');
      assert Names("") == [] && AddChar(Names(a), Fresh(a), '/') == Names(a) by {
        NoNames(a);
      }
    } else {
      var b', c := b[..|b| - 1], b[|b| - 1];
      assert b == b' + [c];
      assert a + "/" + b == (a + "/" + b') + [c];
      NamesJoin(a, b');
      NamesStep(a + "/" + b', c);
      NamesStep(b', c);
      AddBehind(Names(a), Names(b'), Fresh(b'), c);
    }
  }

  lemma NoNames(a: string)
    ensures Names("") == [] && AddChar(Names(a), Fresh(a), '/') == Names(a)
  {}

  predicate Slashes(p: string) {
    forall i | 0 <= i < |p| :: p[i] == '/'
  }

  /** Cutting the end off a path keeps its names only if nothing but slashes goes. */
  lemma {:induction false} NamesCut(p: string, q: string)
    ensures Size(Names(p)) <= Size(Names(p + q))
    ensures if Slashes(q) then Names(p + q) == Names(p) else Size(Names(p)) < Size(Names(p + q))
    decreases |q|
  {
    hide Names, Size, AddChar;
    if q == "" {
      assert p + q == p;
    } else {
      var q', c := q[..|q| - 1], q[|q| - 1];
      assert q == q' + [c];
      assert p + q == (p + q') + [c];
      NamesCut(p, q');
      NamesStep(p + q', c);
      SizeStep(Names(p + q'), Fresh(p + q'), c);
    }
  }

  /** The number of characters in names. */
  function Size(names: seq<string>): nat {
    if names == [] then 0 else Size(names[..|names| - 1]) + |names[|names| - 1]|
  }

  lemma SizeStep(m: seq<string>, start: bool, c: char)
    requires !start ==> m != []
    ensures if c == '/' then AddChar(m, start, c) == m else Size(AddChar(m, start, c)) == Size(m) + 1
  {
    if start {
      assert (m + [[c]])[..|m|] == m;
    } else {
      assert (m[..|m| - 1] + [m[|m| - 1] + [c]])[..|m| - 1] == m[..|m| - 1];
    }
  }

  lemma {:induction false} WalkOn(fs: Files, d: Dir, a: seq<string>, b: seq<string>)
    ensures Walk(fs, d, a + b) == match Walk(fs, d, a) case NotFound(e) => NotFound(e) case Found(p) => Walk(fs, p, b)
    decreases |b|
  {
    if b == [] {
      assert a + b == a;
    } else {
      assert (a + b)[..|a + b| - 1] == a + b[..|b| - 1];
      WalkOn(fs, d, a, b[..|b| - 1]);
    }
  }

  // ---- Both paths lead where they should ----

  /** F_GETPATH's answer is an absolute path, short enough, that leads to the directory. */
  ghost predicate PathsLead(fs: Files, d: Dir) {
    Absolute(fs.path(d)) && |fs.path(d)| < PATH_MAX && Walk(fs, fs.root, Names(fs.path(d))) == Found(d)
  }

  /** A joined path is resolved from the root, by the names of both parts. */
  lemma ResolveJoined(fs: Files, cwd: Dir, g: string, relative: string)
    requires Absolute(g) && Fits(g, relative)
    ensures Resolve(fs, cwd, Joined(g, relative))
            == PlaceFrom(fs, fs.root, Names(g) + Names(relative), relative == "" || relative[|relative| - 1] == '/')
  {
    hide Names, PlaceFrom;
    var p := g + "/" + relative;
    NamesJoin(g, relative);
    assert Joined(g, relative) == p;
    assert p[0] == '/' && p[|p| - 1] == if relative == "" then '/' else relative[|relative| - 1];
  }

  /** Names behind those that lead to a directory lead on from it. */
  lemma PlaceOn(fs: Files, d: Dir, a: seq<string>, b: seq<string>, slash: bool)
    requires Walk(fs, fs.root, a) == Found(d) && b != []
    ensures PlaceFrom(fs, fs.root, a + b, slash) == PlaceFrom(fs, d, b, slash)
  {
    hide Walk;
    assert (a + b)[..|a + b| - 1] == a + b[..|b| - 1];
    WalkOn(fs, fs.root, a, b[..|b| - 1]);
  }

  lemma PlaceOfDir(fs: Files, d: Dir, a: seq<string>, slash: bool)
    requires Walk(fs, fs.root, a) == Found(d)
    ensures !PlaceFrom(fs, fs.root, a, slash).Nowhere?
  {}

  /**
   The joined path leads where the relative one leads from the directory, exactly unless the relative one is empty.
   */
  lemma JoinedLeads(fs: Files, d: Dir, cwd: Dir, relative: string)
    requires PathsLead(fs, d) && |fs.path(d)| + 1 + |relative| < 1024 && !Absolute(relative)
    ensures (Resolve(fs, cwd, Joined(fs.path(d), relative)) == Resolve(fs, d, relative)) <==> relative != ""
  {
    hide Joined, PlaceFrom, Names, Walk;
    var a, b := Names(fs.path(d)), Names(relative);
    ResolveJoined(fs, cwd, fs.path(d), relative);
    if relative != "" {
      FirstName(relative);
      PlaceOn(fs, d, a, b, relative[|relative| - 1] == '/');
    } else {
      NoNames("");
      assert a + b == a;
      PlaceOfDir(fs, d, a, true);
    }
  }

  lemma {:induction false} FirstName(p: string)
    requires p != "" && p[0] != '/'
    ensures Names(p) != []
    decreases |p|
  {
    if |p| > 1 {
      FirstName(p[..|p| - 1]);
    }
  }

  /** The directory in which the caller means a path to be resolved, if its descriptor is in order. */
  function Start(k: Proc, t: Tid, dirfd: int, path: string): Dir {
    if NeedsChdir(dirfd, path) && ChdirError(k, dirfd) == 0 then k.fds[dirfd].dir else Cwd(k, t)
  }

  /** Where the caller means a path to lead: from the root, the current directory or that of the descriptor. */
  function Meant(fs: Files, k: Proc, t: Tid, dirfd: int, path: string): Place {
    if NeedsChdir(dirfd, path) && ChdirError(k, dirfd) != 0 then Nowhere(ChdirError(k, dirfd))
    else Resolve(fs, Start(k, t, dirfd, path), path)
  }

  /** The directory of a descriptor, or the current one. */
  function Base(k: Proc, t: Tid, dirfd: int): Dir {
    if dirfd in k.fds && k.fds[dirfd].Directory? then k.fds[dirfd].dir else Cwd(k, t)
  }

  /** A descriptor that is needed is open on a directory that may be entered. */
  predicate Good(k: Proc, dirfd: int, path: string) {
    NeedsChdir(dirfd, path) ==> ChdirError(k, dirfd) == 0
  }

  /** For the join: open(".") works if it is needed, the system's path leads to the directory, and both fit together. */
  ghost predicate Joinable(fs: Files, k: Proc, t: Tid, dirfd: int, path: string, dot: Answer) {
    && (dirfd == AT_FDCWD ==> OpenWorks(k, dot))
    && PathsLead(fs, Base(k, t, dirfd)) && Fits(fs.path(Base(k, t, dirfd)), path)
  }

  /** The system: descriptors are non-negative, none is opened twice, and 10.4 has no per-thread directories. */
  ghost predicate Usual(v: Version, k: Proc, dot: Answer, sys: Sys) {
    && (forall fd | fd in k.fds :: fd >= 0)
    && (dot.Opened? ==> forall a, b :: dot.fd !in sys(a, b).added)
    && (v.ProcessWide? ==> k.own == map[])
  }

  lemma FullPathIs(fs: Files, k: Proc, t: Tid, dirfd: int, relative: string, dot: Answer)
    requires forall fd | fd in k.fds :: fd >= 0
    requires if dirfd == AT_FDCWD then OpenWorks(k, dot) else ChdirError(k, dirfd) == 0
    ensures FullPathOutcome(fs, k, t, dirfd, relative, dot) ==
            Full(k, Some(Joined(fs.path(Base(k, t, dirfd)), relative)))
  {
    if dirfd == AT_FDCWD {
      var fds := k.fds[dot.fd := Directory(Cwd(k, t), 0, false)];
      assert fds - {dot.fd} == k.fds;
    }
  }

  /** Where paths have to be joined, both can be, and none is empty. */
  ghost predicate JoinsWell(fs: Files, k: Proc, t: Tid, olddirfd: int, oldpath: string,
                            newdirfd: int, newpath: string, dot: Answer, dot2: Answer)
  {
    !Absolute(oldpath) && !Absolute(newpath) && olddirfd != newdirfd ==>
      && Joinable(fs, k, t, olddirfd, oldpath, dot) && Joinable(fs, k, t, newdirfd, newpath, dot2)
      && oldpath != "" && newpath != ""
  }

  /** The places that the joined paths lead to. */
  function JoinedPlaces(fs: Files, k: Proc, t: Tid, olddirfd: int, oldpath: string,
                        newdirfd: int, newpath: string): (Place, Place)
  {
    (Resolve(fs, Cwd(k, t), Joined(fs.path(Base(k, t, olddirfd)), oldpath)),
     Resolve(fs, Cwd(k, t), Joined(fs.path(Base(k, t, newdirfd)), newpath)))
  }

  /**
   For all combinations of paths and descriptors: link or rename is done on the two places that the caller means,
   with its own result and errno, and no descriptor is left behind. Only where paths have to be joined must they fit,
   and not be empty.
   */
  lemma BothPlaces(v: Version, fs: Files, k: Proc, t: Tid, sys: Sys, olddirfd: int, oldpath: string,
                   newdirfd: int, newpath: string, dot: Answer, dot2: Answer)
    requires Usual(v, k, dot, sys)
    requires Good(k, olddirfd, oldpath) && Good(k, newdirfd, newpath)
    requires JoinsWell(fs, k, t, olddirfd, oldpath, newdirfd, newpath, dot, dot2)
    ensures var o := TwoOutcome(v, fs, k, t, sys, olddirfd, oldpath, newdirfd, newpath, dot, dot2);
            var e := sys(Meant(fs, k, t, olddirfd, oldpath), Meant(fs, k, t, newdirfd, newpath));
            o.r == e.r && o.k.fds == k.fds + NewFds(k, e) && (e.r < 0 ==> Errno(o.k, t) == e.error)
  {
    hide AtCallOutcome, FullPathOutcome, Resolve, PathsLead, Joined, ChdirError, NewFds, SetErrno, OpenWorks, Fits;
    var one := Single(olddirfd, oldpath, newdirfd, newpath);
    if one.Some? {
      OnePath(v, fs, k, t, sys, olddirfd, oldpath, newdirfd, newpath, dot, dot2);
    } else {
      FullPathIs(fs, k, t, olddirfd, oldpath, dot);
      FullPathIs(fs, k, t, newdirfd, newpath, dot2);
      JoinedMeant(fs, k, t, olddirfd, oldpath);
      JoinedMeant(fs, k, t, newdirfd, newpath);
      PerformIs(k, t, sys(Meant(fs, k, t, olddirfd, oldpath), Meant(fs, k, t, newdirfd, newpath)));
    }
  }

  lemma Enterable(k: Proc, fd: int)
    ensures ChdirError(k, fd) == 0 <==> fd in k.fds && k.fds[fd].Directory? && k.fds[fd].dir in k.searchable
  {}

  lemma PerformIs(k: Proc, t: Tid, e: Effect)
    ensures var p := Perform(k, t, e);
            p.r == e.r && p.k.fds == k.fds + NewFds(k, e) && (e.r < 0 ==> Errno(p.k, t) == e.error)
  {}

  lemma JoinedMeant(fs: Files, k: Proc, t: Tid, dirfd: int, path: string)
    requires Good(k, dirfd, path) && !Absolute(path) && AT_FDCWD !in k.fds
    requires PathsLead(fs, Base(k, t, dirfd)) && Fits(fs.path(Base(k, t, dirfd)), path)
    ensures (Resolve(fs, Cwd(k, t), Joined(fs.path(Base(k, t, dirfd)), path)) == Meant(fs, k, t, dirfd, path)) <==>
            path != ""
  {
    hide Resolve, PathsLead, Joined;
    JoinedLeads(fs, Base(k, t, dirfd), Cwd(k, t), path);
  }

  /** An absolute path leads to the same place from everywhere. */
  lemma AbsoluteAnywhere(fs: Files, d: Dir, e: Dir, p: string)
    requires Absolute(p)
    ensures Resolve(fs, d, p) == Resolve(fs, e, p)
  {}

  lemma DoingSane(v: Version, fs: Files, k: Proc, sys: Sys, oldpath: string, newpath: string, dot: Answer)
    requires Usual(v, k, dot, sys)
    ensures Sane(v, k, dot, Doing(fs, sys, oldpath, newpath))
  {
    forall d: Dir | dot.Opened?
      ensures dot.fd !in Doing(fs, sys, oldpath, newpath)(d).added
    {
      assert Doing(fs, sys, oldpath, newpath)(d) == sys(Resolve(fs, d, oldpath), Resolve(fs, d, newpath));
    }
  }

  lemma OnePath(v: Version, fs: Files, k: Proc, t: Tid, sys: Sys, olddirfd: int, oldpath: string,
                newdirfd: int, newpath: string, dot: Answer, dot2: Answer)
    requires Usual(v, k, dot, sys)
    requires Good(k, olddirfd, oldpath) && Good(k, newdirfd, newpath)
    requires Absolute(oldpath) || Absolute(newpath) || olddirfd == newdirfd
    ensures var o := TwoOutcome(v, fs, k, t, sys, olddirfd, oldpath, newdirfd, newpath, dot, dot2);
            var e := sys(Meant(fs, k, t, olddirfd, oldpath), Meant(fs, k, t, newdirfd, newpath));
            o.r == e.r && o.k.fds == k.fds + NewFds(k, e) && (e.r < 0 ==> Errno(o.k, t) == e.error)
  {
    hide AtCallOutcome, Resolve, PathsLead, ChdirError, NewFds, SetErrno, Errno, Perform, Sane, Usual;
    var one := Single(olddirfd, oldpath, newdirfd, newpath).value;
    var what := Doing(fs, sys, oldpath, newpath);
    DoingSane(v, fs, k, sys, oldpath, newpath, dot);
    var d := Start(k, t, one.0, one.1);
    assert what(d) == sys(Meant(fs, k, t, olddirfd, oldpath), Meant(fs, k, t, newdirfd, newpath)) by {
      if Absolute(oldpath) {
        AbsoluteAnywhere(fs, d, Cwd(k, t), oldpath);
      }
      if Absolute(newpath) {
        AbsoluteAnywhere(fs, d, Cwd(k, t), newpath);
      }
    }
    if NeedsChdir(one.0, one.1) {
      Enterable(k, one.0);
      GoodDescriptor(v, k, t, one.0, one.1, dot, what);
    } else {
      NoChdir(v, k, t, one.0, one.1, dot, what);
      PerformIs(k, t, what(d));
    }
  }

  lemma PerformHome(v: Version, k: Proc, t: Tid, e: Effect)
    ensures Home(v, Perform(k, t, e).k, t) == Home(v, k, t)
  {}

  /** Fetching a path touches descriptors and errno only. */
  lemma FullPathHome(v: Version, fs: Files, k: Proc, t: Tid, dirfd: int, relative: string, dot: Answer)
    ensures Home(v, FullPathOutcome(fs, k, t, dirfd, relative, dot).k, t) == Home(v, k, t)
  {}

  /** Whichever way is taken, and whatever fails on it, the working directory is given back. */
  lemma HomeAfter(v: Version, fs: Files, k: Proc, t: Tid, sys: Sys, olddirfd: int, oldpath: string,
                  newdirfd: int, newpath: string, dot: Answer, dot2: Answer)
    requires Usual(v, k, dot, sys) && CanGoBack(v, k, t, dot)
    ensures Home(v, TwoOutcome(v, fs, k, t, sys, olddirfd, oldpath, newdirfd, newpath, dot, dot2).k, t) == Home(v, k, t)
  {
    hide AtCallOutcome, FullPathOutcome, Resolve, Perform, Home, CanGoBack, Usual;
    var one := Single(olddirfd, oldpath, newdirfd, newpath);
    if one.Some? {
      DoingSane(v, fs, k, sys, oldpath, newpath, dot);
      if NeedsChdir(one.value.0, one.value.1) {
        HomeRestored(v, k, t, one.value.0, one.value.1, dot, Doing(fs, sys, oldpath, newpath));
      } else {
        NoChdir(v, k, t, one.value.0, one.value.1, dot, Doing(fs, sys, oldpath, newpath));
      }
    } else {
      FullPathHome(v, fs, k, t, olddirfd, oldpath, dot);
      var f := FullPathOutcome(fs, k, t, olddirfd, oldpath, dot);
      FullPathHome(v, fs, f.k, t, newdirfd, newpath, dot2);
      var g := FullPathOutcome(fs, f.k, t, newdirfd, newpath, dot2);
      if f.path.Some? && g.path.Some? {
        PerformHome(v, g.k, t, Doing(fs, sys, f.path.value, g.path.value)(Cwd(g.k, t)));
      }
    }
  }

  lemma UsualFds(v: Version, k: Proc, dot: Answer, sys: Sys)
    requires Usual(v, k, dot, sys)
    ensures forall fd | fd in k.fds :: fd >= 0
  {}

  /** A descriptor that is needed and not open. */
  predicate Unopened(k: Proc, dirfd: int, path: string) {
    NeedsChdir(dirfd, path) && dirfd !in k.fds
  }

  /** A needed descriptor that is not open: the call fails with EBADF and opens nothing. */
  lemma UnopenedFails(v: Version, fs: Files, k: Proc, t: Tid, sys: Sys, olddirfd: int, oldpath: string,
                      newdirfd: int, newpath: string, dot: Answer, dot2: Answer)
    requires Usual(v, k, dot, sys)
    requires !Mistaken(v, k, t, olddirfd, dot) && !Mistaken(v, k, t, newdirfd, dot)
    requires Unopened(k, olddirfd, oldpath) || Unopened(k, newdirfd, newpath)
    requires !Unopened(k, olddirfd, oldpath) ==> Good(k, olddirfd, oldpath)
    requires olddirfd == -2 && Single(olddirfd, oldpath, newdirfd, newpath) == None ==> OpenWorks(k, dot)
    ensures var o := TwoOutcome(v, fs, k, t, sys, olddirfd, oldpath, newdirfd, newpath, dot, dot2);
            o.r == -1 && o.k.fds == k.fds && Errno(o.k, t) == 9
  {
    hide AtCallOutcome, Resolve, Perform, Usual, Mistaken, Joined;
    UsualFds(v, k, dot, sys);
    var one := Single(olddirfd, oldpath, newdirfd, newpath);
    if one.Some? {
      DoingSane(v, fs, k, sys, oldpath, newpath, dot);
      BadDescriptor(v, k, t, one.value.0, one.value.1, dot, Doing(fs, sys, oldpath, newpath));
    } else if !Unopened(k, olddirfd, oldpath) {
      FullPathIs(fs, k, t, olddirfd, oldpath, dot);
    }
  }

  /** With paths that have to be joined, both places are those meant exactly if neither path is empty. */
  lemma JoinedExact(fs: Files, k: Proc, t: Tid, olddirfd: int, oldpath: string, newdirfd: int, newpath: string)
    requires -2 !in k.fds && Single(olddirfd, oldpath, newdirfd, newpath) == None
    requires Good(k, olddirfd, oldpath) && Good(k, newdirfd, newpath)
    requires PathsLead(fs, Base(k, t, olddirfd)) && Fits(fs.path(Base(k, t, olddirfd)), oldpath)
    requires PathsLead(fs, Base(k, t, newdirfd)) && Fits(fs.path(Base(k, t, newdirfd)), newpath)
    ensures (JoinedPlaces(fs, k, t, olddirfd, oldpath, newdirfd, newpath)
             == (Meant(fs, k, t, olddirfd, oldpath), Meant(fs, k, t, newdirfd, newpath)))
            <==> oldpath != "" && newpath != ""
  {
    hide Resolve, PathsLead, Joined, Meant, Good, Fits;
    JoinedMeant(fs, k, t, olddirfd, oldpath);
    JoinedMeant(fs, k, t, newdirfd, newpath);
  }

  /** A joined path that does not fit is cut: it names what it should exactly if only slashes were cut off. */
  lemma CutExact(dir: string, relative: string)
    requires |dir| < PATH_MAX && !Fits(dir, relative)
    ensures var full := dir + "/" + relative;
            (Names(Joined(dir, relative)) == Names(full)) <==> Slashes(full[PATH_MAX - 1..])
  {
    var full := dir + "/" + relative;
    assert Joined(dir, relative) == full[..PATH_MAX - 1];
    assert full == full[..PATH_MAX - 1] + full[PATH_MAX - 1..];
    NamesCut(full[..PATH_MAX - 1], full[PATH_MAX - 1..]);
  }

  // ---- Paths on which the promises fail ----

  /** A tree with one directory below the root, "/d". */
  const TREE: Files :=
    Files(0, (p: Dir, n: string) => if p == 0 && n == "d" then Found(1) else NotFound(ENOENT),
          (d: Dir) => if d == 1 then "/d" else "/", (fd: int) => None)

  lemma TreeNames()
    ensures Names("/") == [] && Names("/d") == ["d"]
  {
    hide Names;
    NoNames("");
    NamesStep("", '/');
    NamesStep("/", 'd');
    assert "" + ['/'] == "/" && "/" + ['d'] == "/d";
  }

  lemma TreeWalk()
    ensures Walk(TREE, 0, []) == Found(0) && Walk(TREE, 0, ["d"]) == Found(1)
  {
    assert ["d"][..0] == [];
  }

  lemma TreePath()
    ensures PathsLead(TREE, 1) && PathsLead(TREE, 0)
  {
    hide Names, Walk;
    TreeNames();
    TreeWalk();
  }

  /** The empty path, with a descriptor on "/d": it should lead nowhere and leads to "/d". */
  lemma EmptyPathLeads()
    ensures var k := Proc(0, map[], map[5 := Directory(1, 0, false)], map[], {0, 1});
            JoinedPlaces(TREE, k, 1, 5, "", -2, "x") !=
            (Meant(TREE, k, 1, 5, ""), Meant(TREE, k, 1, -2, "x"))
            && Meant(TREE, k, 1, 5, "") == Nowhere(2)
  {
    hide Names, Resolve, PathsLead;
    var k := Proc(0, map[], map[5 := Directory(1, 0, false)], map[], {0, 1});
    TreePath();
    JoinedExact(TREE, k, 1, 5, "", -2, "x");
    EmptyIsNowhere(1);
  }

  lemma EmptyIsNowhere(d: Dir)
    ensures Resolve(TREE, d, "") == Nowhere(2)
  {}

  /** What the system takes as a path has less than 1024 characters, the NUL not counted: that much is kept. */
  lemma Kept(dir: string, relative: string)
    requires |dir| + 1 + |relative| <= 1023
    ensures Joined(dir, relative) == dir + "/" + relative
  {}

  /** Of a longer path 1023 characters are kept. */
  lemma CutTo(dir: string, relative: string)
    requires |dir| <= 1023 && |dir| + 1 + |relative| > 1023
    ensures Joined(dir, relative) == (dir + "/" + relative)[..1023]
  {}

  /** The path "/a/a.../a" of 1022 characters and the name "bb": the name is cut off. */
  lemma NameCutOff()
    ensures var dir := seq(1022, i => if i % 2 == 0 then '/' else 'a');
            Names(Joined(dir, "bb")) != Names(dir + "/" + "bb")
  {
    hide Names, Joined;
    var dir := seq(1022, i => if i % 2 == 0 then '/' else 'a');
    CutExact(dir, "bb");
    assert (dir + "/" + "bb")[PATH_MAX - 1..][0] == 'b';
  }
}
