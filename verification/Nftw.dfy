/** au_nftw: a walk down a directory tree over one path buffer that every level
    of the recursion extends and restores in place. */
module Nftw {
  import opened Basics

  datatype Kind = Dir | Symlink | Other

  datatype Stat = Stat(dev: nat, ino: nat, kind: Kind, readable: bool)

  /** What opendir and readdir give; Denied is EACCES. */
  datatype Listing = Names(names: seq<string>) | Denied | Failed

  /** The typeflag handed to the callback. */
  datatype Type = FtwD | FtwDnr | FtwSl | FtwF

  datatype Visit = Visit(path: string, kind: Type, level: nat, base: nat)

  /** The file system and the callback during one walk. lstat gives None for an
      error; a refused lstat (EACCES) is not part of this model. */
  datatype World = World(
    pathMax: nat, mount: bool, lstat: string -> Option<Stat>, list: string -> Listing, fn: Visit -> int)

  const FTW_CONTINUE := 0
  const FTW_SKIP_SUBTREE := 2

  /** The chain of directories above, nearest first. */
  datatype History = Top | Above(chain: History, dev: nat, ino: nat, level: nat, base: nat)

  predicate IsString(s: string) { forall k :: 0 <= k < |s| ==> s[k] != '\0' }

  /** readdir gives names that are not empty and hold neither NUL nor slash. */
  ghost predicate IsName(s: string) {
    0 < |s| && IsString(s) && forall k :: 0 <= k < |s| ==> s[k] != '/'
  }

  ghost predicate WorldOk(w: World) {
    forall p, i :: w.list(p).Names? && 0 <= i < |w.list(p).names| ==> IsName(w.list(p).names[i])
  }

  predicate IsDot(name: string) { name == "." || name == ".." }

  function TypeOf(st: Stat): Type {
    match st.kind
    case Dir => if st.readable then FtwD else FtwDnr
    case Symlink => FtwSl
    case Other => FtwF
  }

  /** The path without one slash at its end. */
  function Stem(path: string): (s: string)
    ensures |path| - 1 <= |s| <= |path| && path[..|s|] == s
    ensures s == path <==> path == "" || path[|path| - 1] != '/'
  {
    if path != "" && path[|path| - 1] == '/' then path[..|path| - 1] else path
  }

  function Child(path: string, name: string): string { Stem(path) + "/" + name }

  /** strrchr(path, '/'): the position of the last slash, or 0. */
  function LastSlash(path: string): (k: nat)
    ensures k < |path| || k == 0
    ensures '/' in path ==> k < |path| && path[k] == '/' && forall i :: k < i < |path| ==> path[i] != '/'
    ensures '/' !in path ==> k == 0
  {
    if path == "" then 0
    else if path[|path| - 1] == '/' then |path| - 1
    else
      assert path == path[..|path| - 1] + [path[|path| - 1]];
      LastSlash(path[..|path| - 1])
  }

  function Level(h: History): nat { if h.Top? then 0 else h.level + 1 }

  function Base(path: string, h: History): nat { if h.Top? then LastSlash(path) else h.base }

  function Extend(path: string, h: History, st: Stat): History {
    Above(h, st.dev, st.ino, Level(h), |path| + 1)
  }

  function Here(w: World, path: string, h: History, st: Stat): Visit {
    Visit(path, TypeOf(st), Level(h), Base(path, h))
  }

  /** A directory that is its own ancestor. */
  predicate Repeated(h: History, st: Stat) {
    h.Above? && ((h.dev == st.dev && h.ino == st.ino) || Repeated(h.chain, st))
  }

  // ---- the tree

  /** What lies below a path. Broken: the walk cannot go on from there. */
  datatype Tree = Node(visit: Visit, kids: seq<Tree>) | Hidden | Broken

  /** The tree as the file system has it: cut at other devices, at directories
      that cannot be read, at repeated ancestors and at depth fd. */
  ghost function Shape(w: World, path: string, h: History, fd: nat): Tree
    decreases fd, 0, 1
  {
    match w.lstat(path)
    case None => Broken
    case Some(st) =>
      if w.mount && h.Above? && st.dev != h.dev then Hidden
      else Node(Here(w, path, h, st), Below(w, path, h, st, fd))
  }

  ghost function Below(w: World, path: string, h: History, st: Stat, fd: nat): seq<Tree>
    decreases fd, 0, 0
  {
    if TypeOf(st) != FtwD || fd == 0 || Repeated(h, st) then []
    else match w.list(path)
      case Denied => []
      case Failed => [Broken]
      case Names(names) => Kids(w, path, Extend(path, h, st), fd - 1, names)
  }

  ghost function Kids(w: World, path: string, h: History, fd: nat, names: seq<string>): seq<Tree>
    decreases fd, |names| + 1
  {
    if names == [] then []
    else if IsDot(names[0]) then Kids(w, path, h, fd, names[1..])
    else if |names[0]| >= w.pathMax - |path| then [Broken]
    else [Shape(w, Child(path, names[0]), h, fd)] + Kids(w, path, h, fd, names[1..])
  }

  predicate Skipped(w: World, v: Visit) { w.fn(v) == FTW_SKIP_SUBTREE && v.kind == FtwD }

  /** The tree without what is below a directory whose subtree is to be skipped. */
  ghost function Prune(w: World, t: Tree): Tree {
    if t.Node? then Node(t.visit, if Skipped(w, t.visit) then [] else PruneAll(w, t.kids)) else t
  }

  ghost function PruneAll(w: World, ts: seq<Tree>): seq<Tree> {
    if ts == [] then [] else [Prune(w, ts[0])] + PruneAll(w, ts[1..])
  }

  datatype Event = Call(visit: Visit) | Error

  ghost function Preorder(t: Tree): seq<Event> {
    match t
    case Hidden => []
    case Broken => [Error]
    case Node(v, kids) => [Call(v)] + PreorderAll(kids)
  }

  ghost function PreorderAll(ts: seq<Tree>): seq<Event> {
    if ts == [] then [] else Preorder(ts[0]) + PreorderAll(ts[1..])
  }

  /** What the walk returns at an event: 0 to go on. */
  function Verdict(w: World, e: Event): int {
    if e.Error? then -1 else if Skipped(w, e.visit) then FTW_CONTINUE else w.fn(e.visit)
  }

  /** The first verdict that is not 0, or 0. */
  ghost function Result(w: World, es: seq<Event>): int {
    if es == [] then 0 else if Verdict(w, es[0]) != 0 then Verdict(w, es[0]) else Result(w, es[1..])
  }

  /** The calls up to that event, itself included. */
  ghost function Calls(w: World, es: seq<Event>): seq<Visit> {
    if es == [] then []
    else
      var first := if es[0].Call? then [es[0].visit] else [];
      if Verdict(w, es[0]) != 0 then first else first + Calls(w, es[1..])
  }

  lemma {:induction false} Joined(w: World, es: seq<Event>, fs: seq<Event>)
    ensures Result(w, es + fs) == if Result(w, es) != 0 then Result(w, es) else Result(w, fs)
    ensures Calls(w, es + fs) == Calls(w, es) + if Result(w, es) != 0 then [] else Calls(w, fs)
    decreases |es|
  {
    if es == [] {
      assert es + fs == fs;
    } else {
      assert (es + fs)[1..] == es[1..] + fs;
      Joined(w, es[1..], fs);
    }
  }

  ghost function Walk(w: World, path: string, h: History, fd: nat): seq<Event> {
    Preorder(Prune(w, Shape(w, path, h, fd)))
  }

  ghost function WalkAll(w: World, ts: seq<Tree>): seq<Event> { PreorderAll(PruneAll(w, ts)) }

  // ---- the walk in place

  /** The buffer holds the string p, terminated. */
  ghost predicate Holds(buf: array<char>, p: string)
    reads buf
  {
    |p| < buf.Length && buf[..|p|] == p && buf[|p|] == '\0' && IsString(p)
  }

  method StrLen(buf: array<char>, ghost p: string) returns (l: nat)
    requires Holds(buf, p)
    ensures l == |p|
  {
    l := 0;
    while buf[l] != '\0'
      invariant l <= |p|
      invariant forall k :: 0 <= k < |p| ==> buf[k] == p[k] && buf[k] != '\0'
      decreases |p| - l
    {
      l := l + 1;
    }
  }

  /** The last position written is at + |s|. */
  method StrCpy(buf: array<char>, at: nat, s: string)
    requires at + |s| < buf.Length
    modifies buf
    ensures buf[..at] == old(buf[..at]) && buf[at..at + |s|] == s && buf[at + |s|] == '\0'
    ensures buf[at + |s| + 1..] == old(buf[at + |s| + 1..])
  {
    var i := 0;
    while i < |s|
      invariant i <= |s| && buf[..at] == old(buf[..at]) && buf[at..at + i] == s[..i]
      invariant buf[at + |s| + 1..] == old(buf[at + |s| + 1..])
    {
      buf[at + i] := s[i];
      i := i + 1;
    }
    buf[at + |s|] := '\0';
  }

  lemma NextName(w: World, path: string, h: History, fd: nat, names: seq<string>)
    requires names != []
    ensures
      var es := WalkAll(w, Kids(w, path, h, fd, names));
      var rest := WalkAll(w, Kids(w, path, h, fd, names[1..]));
      if IsDot(names[0]) then es == rest
      else if |names[0]| >= w.pathMax - |path| then Result(w, es) == -1 && Calls(w, es) == []
      else
        var first := Walk(w, Child(path, names[0]), h, fd);
        && Result(w, es) == (if Result(w, first) != 0 then Result(w, first) else Result(w, rest))
        && Calls(w, es) == Calls(w, first) + if Result(w, first) != 0 then [] else Calls(w, rest)
  {
    if !IsDot(names[0]) {
      if |names[0]| >= w.pathMax - |path| {
        assert PruneAll(w, [Broken]) == [Broken];
        assert PreorderAll([Broken]) == [Error];
      } else {
        var t := Shape(w, Child(path, names[0]), h, fd);
        var ts := Kids(w, path, h, fd, names[1..]);
        assert ([t] + ts)[1..] == ts;
        assert PruneAll(w, [t] + ts) == [Prune(w, t)] + PruneAll(w, ts);
        assert ([Prune(w, t)] + PruneAll(w, ts))[1..] == PruneAll(w, ts);
        Joined(w, Preorder(Prune(w, t)), WalkAll(w, ts));
      }
    }
  }

  /** The calls are those made so far and those still to be made. */
  ghost predicate Left(w: World, all: seq<Event>, done: seq<Visit>, rest: seq<Event>) {
    Calls(w, all) == done + Calls(w, rest) && Result(w, all) == Result(w, rest)
  }

  ghost function From(w: World, path: string, h: History, fd: nat, names: seq<string>, i: nat): seq<Event>
    requires i <= |names|
  {
    WalkAll(w, Kids(w, path, h, fd, names[i..]))
  }

  lemma NextLeft(w: World, path: string, h: History, fd: nat, names: seq<string>, i: nat,
      done: seq<Visit>, all: seq<Event>)
    requires i < |names| && Left(w, all, done, From(w, path, h, fd, names, i))
    ensures IsDot(names[i]) ==> Left(w, all, done, From(w, path, h, fd, names, i + 1))
    ensures !IsDot(names[i]) && |names[i]| >= w.pathMax - |path| ==> Result(w, all) == -1 && Calls(w, all) == done
    ensures !IsDot(names[i]) && |names[i]| < w.pathMax - |path| ==>
      var first := Walk(w, Child(path, names[i]), h, fd);
      if Result(w, first) != 0
      then Result(w, all) == Result(w, first) && Calls(w, all) == done + Calls(w, first)
      else Left(w, all, done + Calls(w, first), From(w, path, h, fd, names, i + 1))
  {
    var ns := names[i..];
    NextName(w, path, h, fd, ns);
    assert ns[1..] == names[i + 1..];
    if !IsDot(names[i]) && |names[i]| < w.pathMax - |path| {
      var first := Calls(w, Walk(w, Child(path, names[i]), h, fd));
      Assoc(done, first, Calls(w, From(w, path, h, fd, names, i + 1)));
    }
  }

  lemma Assoc<T>(a: seq<T>, b: seq<T>, c: seq<T>)
    ensures (a + b) + c == a + (b + c)
  {
  }

  lemma NoneLeft(w: World, path: string, h: History, fd: nat, names: seq<string>, done: seq<Visit>, all: seq<Event>)
    requires Left(w, all, done, From(w, path, h, fd, names, |names|))
    ensures Calls(w, all) == done && Result(w, all) == 0
  {
  }

  lemma CannotList(w: World)
    ensures Calls(w, WalkAll(w, [Broken])) == [] && Result(w, WalkAll(w, [Broken])) == -1
  {
    assert PruneAll(w, [Broken]) == [Broken];
    assert PreorderAll([Broken]) == [Error];
  }

  /** The walk of a node: its call, then what is below it. */
  lemma NodeFirst(w: World, v: Visit, kids: seq<Tree>)
    ensures
      var es := Preorder(Prune(w, Node(v, kids)));
      if Verdict(w, Call(v)) != 0 then Calls(w, es) == [v] && Result(w, es) == Verdict(w, Call(v))
      else if Skipped(w, v) then Calls(w, es) == [v] && Result(w, es) == 0
      else Calls(w, es) == [v] + Calls(w, WalkAll(w, kids)) && Result(w, es) == Result(w, WalkAll(w, kids))
  {
  }

  class Walker {
    const w: World
    ghost var log: seq<Visit>

    constructor (w: World)
      ensures this.w == w && log == []
    {
      this.w := w;
      log := [];
    }

    /** fn sees the terminated string in the buffer. */
    method CallFn(path: array<char>, ghost p: string, kind: Type, level: nat, base: nat) returns (r: int)
      requires Holds(path, p)
      modifies this
      ensures log == old(log) + [Visit(p, kind, level, base)] && r == w.fn(Visit(p, kind, level, base))
    {
      var l := StrLen(path, p);
      r := w.fn(Visit(path[..l], kind, level, base));
      log := log + [Visit(p, kind, level, base)];
    }

    /** path[j] = '/'; strcpy(path + j + 1, name) */
    method Append(path: array<char>, l: nat, j: nat, name: string, ghost p: string)
      requires IsString(p) && IsName(name) && |p| == l && j == |Stem(p)| && l < path.Length
      requires path.Length == w.pathMax + 1 && |name| < w.pathMax - l
      requires path[..j] == p[..j]
      modifies path
      ensures Holds(path, Child(p, name))
    {
      path[j] := '/';
      StrCpy(path, j + 1, name);
      assert Stem(p) == p[..j];
      assert path[..j + 1] == p[..j] + "/";
      assert path[..j + 1 + |name|] == path[..j + 1] + path[j + 1..j + 1 + |name|];
    }

    method IsRepeated(h: History, st: Stat) returns (r: bool)
      ensures r == Repeated(h, st)
    {
      var g := h;
      r := false;
      while g.Above?
        invariant Repeated(h, st) == Repeated(g, st)
        decreases g
      {
        if g.dev == st.dev && g.ino == st.ino { return true; }
        g := g.chain;
      }
    }

    /** do_nftw: it calls fn in the preorder of the pruned tree until a verdict is
        not 0; when it returns 0 the buffer is as it was up to its terminator. */
    method DoNftw(path: array<char>, fd: nat, h: History, ghost p: string) returns (r: int)
      requires WorldOk(w) && Holds(path, p) && path.Length == w.pathMax + 1
      modifies this, path
      ensures log == old(log) + Calls(w, Walk(w, p, h, fd)) && r == Result(w, Walk(w, p, h, fd))
      ensures r == 0 ==> Holds(path, p)
      decreases fd, 1
    {
      var l := StrLen(path, p);
      var j := if l != 0 && path[l - 1] == '/' then l - 1 else l;
      var name := path[..l];
      var stat := w.lstat(name);
      if stat.None? { return -1; }
      var st := stat.value;
      if w.mount && h.Above? && st.dev != h.dev { return 0; }
      r := VisitNode(path, l, j, fd, h, st, p);
    }

    /** The part of do_nftw behind the tests of the path. */
    method VisitNode(path: array<char>, l: nat, j: nat, fd: nat, h: History, st: Stat, ghost p: string)
      returns (r: int)
      requires WorldOk(w) && Holds(path, p) && path.Length == w.pathMax + 1 && |p| == l && j == |Stem(p)|
      modifies this, path
      ensures var es := Preorder(Prune(w, Node(Here(w, p, h, st), Below(w, p, h, st, fd))));
        log == old(log) + Calls(w, es) && r == Result(w, es)
      ensures r == 0 ==> Holds(path, p)
      decreases fd, 0, 1
    {
      var kind := TypeOf(st);
      ghost var v := Here(w, p, h, st);
      ghost var below := Below(w, p, h, st, fd);
      NodeFirst(w, v, below);
      r := CallFn(path, p, kind, Level(h), if h.Above? then h.base else LastSlash(path[..l]));
      if r != 0 {
        return if r == FTW_SKIP_SUBTREE && kind == FtwD then FTW_CONTINUE else r;
      }
      r := Under(path, l, j, fd, h, st, p);
      Assoc(old(log), [v], Calls(w, WalkAll(w, below)));
    }

    /** The part of do_nftw behind the call of fn. */
    method Under(path: array<char>, l: nat, j: nat, fd: nat, h: History, st: Stat, ghost p: string) returns (r: int)
      requires WorldOk(w) && Holds(path, p) && path.Length == w.pathMax + 1 && |p| == l && j == |Stem(p)|
      modifies this, path
      ensures log == old(log) + Calls(w, WalkAll(w, Below(w, p, h, st, fd)))
      ensures r == Result(w, WalkAll(w, Below(w, p, h, st, fd)))
      ensures r == 0 ==> Holds(path, p)
      decreases fd, 0, 0
    {
      var repeated := IsRepeated(h, st);
      if repeated { return 0; }
      if TypeOf(st) == FtwD && fd != 0 {
        var name := path[..l];
        var d := w.list(name);
        match d
        case Names(names) =>
          r := ReadNames(path, l, j, fd - 1, Extend(name, h, st), names, p);
          if r != 0 { return; }
        case Denied =>
        case Failed =>
          CannotList(w);
          return -1;
      }
      path[l] := '\0';
      r := 0;
    }

    /** The readdir loop. */
    method ReadNames(path: array<char>, l: nat, j: nat, fd: nat, h: History, names: seq<string>, ghost p: string)
      returns (r: int)
      requires WorldOk(w) && Holds(path, p) && path.Length == w.pathMax + 1
      requires |p| == l && j == |Stem(p)| && forall i :: 0 <= i < |names| ==> IsName(names[i])
      modifies this, path
      ensures log == old(log) + Calls(w, WalkAll(w, Kids(w, p, h, fd, names)))
      ensures r == Result(w, WalkAll(w, Kids(w, p, h, fd, names)))
      ensures r == 0 ==> path[..l] == p
      decreases fd, 4
    {
      ghost var all := From(w, p, h, fd, names, 0);
      assert names[0..] == names;
      ghost var log0, done := log, [];
      var i := 0;
      r := 0;
      ghost var rest := all;
      while i < |names|
        invariant i <= |names| && path[..l] == p && r == 0 && log == log0 + done
        invariant rest == From(w, p, h, fd, names, i) && Left(w, all, done, rest)
      {
        ghost var made;
        r, made := ReadOne(path, l, j, fd, h, names, i, p, done, all);
        Assoc(log0, done, made);
        done := done + made;
        if r != 0 { return; }
        i := i + 1;
        rest := From(w, p, h, fd, names, i);
      }
      NoneLeft(w, p, h, fd, names, done, all);
    }

    /** One turn of it. */
    method ReadOne(path: array<char>, l: nat, j: nat, fd: nat, h: History, names: seq<string>, i: nat,
        ghost p: string, ghost done: seq<Visit>, ghost all: seq<Event>)
      returns (r: int, ghost made: seq<Visit>)
      requires WorldOk(w) && path.Length == w.pathMax + 1 && l < path.Length && path[..l] == p
      requires IsString(p) && |p| == l && j == |Stem(p)| && i < |names| && IsName(names[i])
      requires Left(w, all, done, From(w, p, h, fd, names, i))
      modifies this, path
      ensures log == old(log) + made
      ensures r != 0 ==> r == Result(w, all) && Calls(w, all) == done + made
      ensures r == 0 ==> path[..l] == p && Left(w, all, done + made, From(w, p, h, fd, names, i + 1))
      decreases fd, 3
    {
      NextLeft(w, p, h, fd, names, i, done, all);
      r, made := 0, [];
      assert done + made == done;
      if !IsDot(names[i]) {
        if |names[i]| >= w.pathMax - l { return -1, []; }
        r := OneName(path, l, j, fd, h, names[i], p);
        made := Calls(w, Walk(w, Child(p, names[i]), h, fd));
      }
    }

    /** The part of its body behind the length test. */
    method OneName(path: array<char>, l: nat, j: nat, fd: nat, h: History, name: string, ghost p: string)
      returns (r: int)
      requires WorldOk(w) && path.Length == w.pathMax + 1 && l < path.Length && path[..l] == p
      requires IsString(p) && |p| == l && j == |Stem(p)| && IsName(name) && |name| < w.pathMax - l
      modifies this, path
      ensures log == old(log) + Calls(w, Walk(w, Child(p, name), h, fd)) && r == Result(w, Walk(w, Child(p, name), h, fd))
      ensures r == 0 ==> path[..l] == p
      decreases fd, 2
    {
      assert path[..j] == path[..l][..j];
      Append(path, l, j, name, p);
      r := DoNftw(path, fd, h, Child(p, name));
      ChildHolds(p, name);
      if r == 0 {
        assert path[..l] == path[..|Child(p, name)|][..l];
      }
    }

    /** au_nftw, with a buffer of PATH_MAX + 1 characters. */
    method AuNftw(path: string, fdLimit: int) returns (r: int)
      requires WorldOk(w) && IsString(path)
      modifies this
      ensures fdLimit <= 0 ==> r == 0 && log == old(log)
      ensures 0 < fdLimit && w.pathMax < |path| ==> r == -1 && log == old(log)
      ensures 0 < fdLimit && |path| <= w.pathMax ==>
        && r == Result(w, Walk(w, path, Top, fdLimit))
        && log == old(log) + Calls(w, Walk(w, path, Top, fdLimit))
    {
      if fdLimit <= 0 { return 0; }
      if |path| > w.pathMax { return -1; }
      var buf := new char[w.pathMax + 1];
      StrCpy(buf, 0, path);
      assert buf[..|path|] == buf[0..0 + |path|];
      r := DoNftw(buf, fdLimit, Top, path);
    }
  }

  lemma ChildHolds(p: string, name: string)
    ensures |p| <= |Child(p, name)| && Child(p, name)[..|p|] == p
  {
  }

  // ---- which paths are visited

  /** The names lead down from path to v: each is listed in a directory that may be
      entered, and fits into the buffer. */
  ghost predicate Reached(w: World, path: string, h: History, fd: nat, names: seq<string>, v: Visit)
    decreases |names|
  {
    && w.lstat(path).Some?
    && var st := w.lstat(path).value;
    && !(w.mount && h.Above? && st.dev != h.dev)
    && if names == [] then v == Here(w, path, h, st)
       else
         && Entered(w, path, h, st, fd) && Listed(w, path, names[0])
         && Reached(w, Child(path, names[0]), Extend(path, h, st), fd - 1, names[1..], v)
  }

  ghost predicate Entered(w: World, path: string, h: History, st: Stat, fd: nat) {
    TypeOf(st) == FtwD && fd != 0 && !Repeated(h, st) && !Skipped(w, Here(w, path, h, st))
  }

  ghost predicate Listed(w: World, path: string, name: string) {
    w.list(path).Names? && name in w.list(path).names && Fits(w, path, name)
  }

  predicate Fits(w: World, path: string, name: string) {
    !IsDot(name) && |name| < w.pathMax - |path|
  }

  lemma {:induction false} NoErrorInResult(w: World, es: seq<Event>)
    requires Result(w, es) == 0
    ensures Error !in es && forall v :: v in Calls(w, es) <==> Call(v) in es
    decreases |es|
  {
    if es != [] { NoErrorInResult(w, es[1..]); }
  }

  ghost predicate InKid(w: World, path: string, h: History, fd: nat, names: seq<string>, e: Event) {
    exists n :: n in names && Fits(w, path, n) && e in Walk(w, Child(path, n), h, fd)
  }

  lemma InKidSplit(w: World, path: string, h: History, fd: nat, names: seq<string>, e: Event)
    requires names != []
    ensures InKid(w, path, h, fd, names, e) <==>
      (Fits(w, path, names[0]) && e in Walk(w, Child(path, names[0]), h, fd))
      || InKid(w, path, h, fd, names[1..], e)
  {
    assert forall n :: n in names <==> n == names[0] || n in names[1..];
  }

  /** Walking the names of a directory is walking each one that fits, up to an error. */
  lemma {:induction false} KidEvents(w: World, path: string, h: History, fd: nat, names: seq<string>, e: Event)
    requires Error !in WalkAll(w, Kids(w, path, h, fd, names))
    ensures e in WalkAll(w, Kids(w, path, h, fd, names)) <==> InKid(w, path, h, fd, names, e)
    ensures !InKid(w, path, h, fd, names, Error)
    decreases |names|
  {
    if names != [] {
      InKidSplit(w, path, h, fd, names, e);
      InKidSplit(w, path, h, fd, names, Error);
      if IsDot(names[0]) {
        KidEvents(w, path, h, fd, names[1..], e);
      } else if |names[0]| >= w.pathMax - |path| {
        CannotListEvents(w);
      } else {
        FirstKid(w, path, h, fd, names);
        KidEvents(w, path, h, fd, names[1..], e);
      }
    }
  }

  lemma CannotListEvents(w: World)
    ensures WalkAll(w, [Broken]) == [Error]
  {
    assert PruneAll(w, [Broken]) == [Broken];
  }

  lemma FirstKid(w: World, path: string, h: History, fd: nat, names: seq<string>)
    requires names != [] && Fits(w, path, names[0])
    ensures WalkAll(w, Kids(w, path, h, fd, names))
         == Walk(w, Child(path, names[0]), h, fd) + WalkAll(w, Kids(w, path, h, fd, names[1..]))
  {
  }

  /** A node's events are its call and, if it is entered, those of its names. */
  lemma NodeEvents(w: World, path: string, h: History, fd: nat, st: Stat)
    requires w.lstat(path) == Some(st) && !(w.mount && h.Above? && st.dev != h.dev)
    ensures Walk(w, path, h, fd) == [Call(Here(w, path, h, st))] +
      if !Entered(w, path, h, st, fd) || w.list(path).Denied? then []
      else if w.list(path).Failed? then [Error]
      else WalkAll(w, Kids(w, path, Extend(path, h, st), fd - 1, w.list(path).names))
  {
    CannotListEvents(w);
    var below := Below(w, path, h, st, fd);
    var v := Here(w, path, h, st);
    var kids := if Skipped(w, v) then [] else PruneAll(w, below);
    assert Shape(w, path, h, fd) == Node(v, below);
    assert Prune(w, Node(v, below)) == Node(v, kids);
    assert Preorder(Node(v, kids)) == [Call(v)] + PreorderAll(kids);
  }

  ghost predicate Reachable(w: World, path: string, h: History, fd: nat, v: Visit) {
    exists names :: Reached(w, path, h, fd, names, v)
  }

  lemma BrokenEvents(w: World, path: string, h: History, fd: nat)
    ensures w.lstat(path).None? ==> Error in Walk(w, path, h, fd)
    ensures w.lstat(path).Some? && w.list(path).Failed? ==>
      var st := w.lstat(path).value;
      !(w.mount && h.Above? && st.dev != h.dev) && Entered(w, path, h, st, fd) ==> Error in Walk(w, path, h, fd)
  {
    if w.lstat(path).None? {
      assert Walk(w, path, h, fd)[0] == Error;
    } else if !(w.mount && h.Above? && w.lstat(path).value.dev != h.dev) {
      NodeEvents(w, path, h, fd, w.lstat(path).value);
    }
  }

  /** In a walk without errors, the visits are exactly the paths that are reached. */
  lemma {:induction false} VisitedIff(w: World, path: string, h: History, fd: nat, v: Visit)
    requires Error !in Walk(w, path, h, fd)
    ensures Call(v) in Walk(w, path, h, fd) <==> Reachable(w, path, h, fd, v)
    decreases fd
  {
    BrokenEvents(w, path, h, fd);
    var st := w.lstat(path).value;
    if !(w.mount && h.Above? && st.dev != h.dev) {
      NodeEvents(w, path, h, fd, st);
      assert Reached(w, path, h, fd, [], Here(w, path, h, st));
      if Entered(w, path, h, st, fd) && w.list(path).Names? {
        var ns, h' := w.list(path).names, Extend(path, h, st);
        KidEvents(w, path, h', fd - 1, ns, Call(v));
        forall n | n in ns && Fits(w, path, n)
          ensures Call(v) in Walk(w, Child(path, n), h', fd - 1) <==> Reachable(w, Child(path, n), h', fd - 1, v)
        {
          VisitedIff(w, Child(path, n), h', fd - 1, v);
        }
        ReachableBelow(w, path, h, fd, st, v);
      }
    }
  }

  ghost predicate Through(w: World, path: string, h: History, fd: nat, st: Stat, v: Visit)
    requires w.list(path).Names? && 0 < fd
  {
    exists n :: n in w.list(path).names && Fits(w, path, n)
             && Reachable(w, Child(path, n), Extend(path, h, st), fd - 1, v)
  }

  /** A path is reached as the node itself or through one of its names. */
  lemma ReachableBelow(w: World, path: string, h: History, fd: nat, st: Stat, v: Visit)
    requires w.lstat(path) == Some(st) && !(w.mount && h.Above? && st.dev != h.dev)
    requires Entered(w, path, h, st, fd) && w.list(path).Names?
    ensures Reachable(w, path, h, fd, v) <==> (v == Here(w, path, h, st) || Through(w, path, h, fd, st, v))
  {
    if v == Here(w, path, h, st) {
      assert Reached(w, path, h, fd, [], v);
    }
    var h' := Extend(path, h, st);
    forall n | n in w.list(path).names && Fits(w, path, n) && Reachable(w, Child(path, n), h', fd - 1, v)
      ensures Reachable(w, path, h, fd, v)
    {
      var names :| Reached(w, Child(path, n), h', fd - 1, names, v);
      assert ([n] + names)[1..] == names;
      assert Reached(w, path, h, fd, [n] + names, v);
    }
    if Reachable(w, path, h, fd, v) && v != Here(w, path, h, st) {
      var names :| Reached(w, path, h, fd, names, v);
      assert Reached(w, Child(path, names[0]), h', fd - 1, names[1..], v);
    }
  }

  /** A walk that returns 0 has called fn for exactly the paths that are reached. */
  lemma CallsAreReached(w: World, path: string, fd: nat, v: Visit)
    requires Result(w, Walk(w, path, Top, fd)) == 0
    ensures v in Calls(w, Walk(w, path, Top, fd)) <==> Reachable(w, path, Top, fd, v)
  {
    NoErrorInResult(w, Walk(w, path, Top, fd));
    VisitedIff(w, path, Top, fd, v);
  }

  // ---- ... without the recursion

  /** The path of the k-th node on the way down. */
  function At(path: string, names: seq<string>, k: nat): string
    requires k <= |names|
  {
    if k == 0 then path else Child(At(path, names, k - 1), names[k - 1])
  }

  /** The chain of directories above it. */
  function HistoryAt(w: World, path: string, names: seq<string>, k: nat): History
    requires k <= |names|
  {
    if k == 0 then Top
    else
      var p, h := At(path, names, k - 1), HistoryAt(w, path, names, k - 1);
      match w.lstat(p)
      case None => h
      case Some(st) => Extend(p, h, st)
  }

  ghost predicate AllThere(w: World, path: string, names: seq<string>, k: nat)
    requires k <= |names| + 1
  {
    forall i :: 0 <= i < k ==> w.lstat(At(path, names, i)).Some?
  }

  ghost predicate SeenAbove(w: World, path: string, names: seq<string>, k: nat, st: Stat)
    requires k <= |names| && AllThere(w, path, names, k)
  {
    exists i :: 0 <= i < k && SameFile(w.lstat(At(path, names, i)).value, st)
  }

  predicate SameFile(a: Stat, b: Stat) { a.dev == b.dev && a.ino == b.ino }

  lemma {:induction false} ChainIs(w: World, path: string, names: seq<string>, k: nat, st: Stat)
    requires k <= |names| && AllThere(w, path, names, k)
    ensures var h := HistoryAt(w, path, names, k);
      && Level(h) == k && (h.Above? <==> 0 < k)
      && (0 < k ==> h.dev == w.lstat(At(path, names, k - 1)).value.dev && h.base == |At(path, names, k - 1)| + 1)
      && (Repeated(h, st) <==> SeenAbove(w, path, names, k, st))
  {
    if 0 < k { ChainIs(w, path, names, k - 1, st); }
  }

  ghost predicate NodeOk(w: World, path: string, names: seq<string>, k: nat)
    requires k <= |names|
  {
    var h := HistoryAt(w, path, names, k);
    w.lstat(At(path, names, k)).Some?
    && !(w.mount && h.Above? && w.lstat(At(path, names, k)).value.dev != h.dev)
  }

  ghost predicate StepOk(w: World, path: string, fd: nat, names: seq<string>, k: nat)
    requires k < |names| && k <= fd
  {
    var p, h := At(path, names, k), HistoryAt(w, path, names, k);
    NodeOk(w, path, names, k) && Entered(w, p, h, w.lstat(p).value, fd - k) && Listed(w, p, names[k])
  }

  ghost predicate StepsOk(w: World, path: string, fd: nat, names: seq<string>, k: nat)
    requires k <= |names|
  {
    k <= fd && forall i :: 0 <= i < k ==> StepOk(w, path, fd, names, i)
  }

  lemma StepsMore(w: World, path: string, fd: nat, names: seq<string>, k: nat)
    requires k < |names|
    ensures StepsOk(w, path, fd, names, k + 1) <==>
      StepsOk(w, path, fd, names, k) && k < fd && StepOk(w, path, fd, names, k)
  {
  }

  /** The rest of the way leads from the k-th node to the visit. */
  ghost predicate Onward(w: World, path: string, fd: nat, names: seq<string>, v: Visit, k: nat)
    requires k <= |names| && k <= fd
  {
    Reached(w, At(path, names, k), HistoryAt(w, path, names, k), fd - k, names[k..], v)
  }

  /** One step of the recursion. */
  lemma OneStep(w: World, path: string, fd: nat, names: seq<string>, v: Visit, k: nat)
    requires k < |names| && k <= fd
    ensures Onward(w, path, fd, names, v, k) <==>
      StepOk(w, path, fd, names, k) && k < fd && Onward(w, path, fd, names, v, k + 1)
  {
    assert names[k..][1..] == names[k + 1..] && names[k..][0] == names[k];
  }

  lemma LastStep(w: World, path: string, fd: nat, names: seq<string>, v: Visit)
    requires |names| <= fd
    ensures var n := |names|;
      Onward(w, path, fd, names, v, n) <==>
      NodeOk(w, path, names, n)
      && v == Here(w, At(path, names, n), HistoryAt(w, path, names, n), w.lstat(At(path, names, n)).value)
  {
    assert names[|names|..] == [];
  }

  lemma {:induction false} OnwardFrom(w: World, path: string, fd: nat, names: seq<string>, v: Visit, k: nat)
    requires k <= |names|
    ensures Onward(w, path, fd, names, v, 0) <==>
      StepsOk(w, path, fd, names, k) && Onward(w, path, fd, names, v, k)
  {
    if 0 < k {
      OnwardFrom(w, path, fd, names, v, k - 1);
      StepsMore(w, path, fd, names, k - 1);
      if StepsOk(w, path, fd, names, k - 1) { OneStep(w, path, fd, names, v, k - 1); }
    }
  }

  function BaseAt(path: string, names: seq<string>, k: nat): nat
    requires k <= |names|
  {
    if k == 0 then LastSlash(path) else |At(path, names, k - 1)| + 1
  }

  /** A readable directory above the depth limit that is none of its own ancestors
      and whose subtree fn did not skip; it lists the next name, which is neither
      "." nor ".." and fits into the buffer. */
  ghost predicate LeadsOn(w: World, path: string, fd: nat, names: seq<string>, k: nat)
    requires k < |names|
  {
    var p := At(path, names, k);
    && w.lstat(p).Some? && w.lstat(p).value.kind.Dir? && w.lstat(p).value.readable && k < fd
    && AllThere(w, path, names, k) && !SeenAbove(w, path, names, k, w.lstat(p).value)
    && w.fn(Visit(p, FtwD, k, BaseAt(path, names, k))) != FTW_SKIP_SUBTREE
    && w.list(p).Names? && names[k] in w.list(p).names
    && names[k] != "." && names[k] != ".." && |p| + |names[k]| < w.pathMax
  }

  ghost predicate OneDevice(w: World, path: string, names: seq<string>, k: nat)
    requires 0 < k <= |names|
  {
    var a, b := w.lstat(At(path, names, k - 1)), w.lstat(At(path, names, k));
    a.Some? && b.Some? && a.value.dev == b.value.dev
  }

  ghost predicate AllLead(w: World, path: string, fd: nat, names: seq<string>, k: nat)
    requires k <= |names|
  {
    forall i :: 0 <= i < k ==> LeadsOn(w, path, fd, names, i)
  }

  lemma LeadMore(w: World, path: string, fd: nat, names: seq<string>, k: nat)
    requires k < |names|
    ensures AllLead(w, path, fd, names, k + 1) <==> AllLead(w, path, fd, names, k) && LeadsOn(w, path, fd, names, k)
  {
  }

  /** With FTW_MOUNT the first k nodes are on one device. */
  ghost predicate SameDevice(w: World, path: string, names: seq<string>, k: nat)
    requires k <= |names| + 1
  {
    w.mount ==> forall i :: 0 < i < k ==> OneDevice(w, path, names, i)
  }

  lemma DeviceMore(w: World, path: string, names: seq<string>, k: nat)
    requires k <= |names|
    ensures SameDevice(w, path, names, k + 1) <==>
      SameDevice(w, path, names, k) && (w.mount && 0 < k ==> OneDevice(w, path, names, k))
  {
  }

  /** The visit of the last node. */
  ghost predicate IsVisit(w: World, path: string, names: seq<string>, v: Visit)
    requires AllThere(w, path, names, |names| + 1)
  {
    var n := |names|;
    var st := w.lstat(At(path, names, n)).value;
    && v.path == At(path, names, n) && v.level == n && v.base == BaseAt(path, names, n)
    && (v.kind.FtwD? <==> st.kind.Dir? && st.readable) && (v.kind.FtwDnr? <==> st.kind.Dir? && !st.readable)
    && (v.kind.FtwSl? <==> st.kind.Symlink?)
  }

  /** The way down along the names exists and ends with this visit. */
  ghost predicate LeadsTo(w: World, path: string, fd: nat, names: seq<string>, v: Visit) {
    && AllThere(w, path, names, |names| + 1)
    && AllLead(w, path, fd, names, |names|)
    && SameDevice(w, path, names, |names| + 1)
    && IsVisit(w, path, names, v)
  }

  lemma NodeIff(w: World, path: string, names: seq<string>, k: nat)
    requires k <= |names| && AllThere(w, path, names, k)
    ensures NodeOk(w, path, names, k) <==>
      w.lstat(At(path, names, k)).Some? && (w.mount && 0 < k ==> OneDevice(w, path, names, k))
  {
    ChainIs(w, path, names, k, Stat(0, 0, Other, false));
  }

  lemma StepIff(w: World, path: string, fd: nat, names: seq<string>, k: nat)
    requires k < |names| && k <= fd && AllThere(w, path, names, k)
    ensures StepOk(w, path, fd, names, k) <==>
      LeadsOn(w, path, fd, names, k) && (w.mount && 0 < k ==> OneDevice(w, path, names, k))
  {
    NodeIff(w, path, names, k);
    var p := At(path, names, k);
    if w.lstat(p).Some? {
      ChainIs(w, path, names, k, w.lstat(p).value);
    }
  }

  lemma {:induction false} StepsIff(w: World, path: string, fd: nat, names: seq<string>, k: nat)
    requires k <= |names|
    ensures StepsOk(w, path, fd, names, k) <==>
      AllLead(w, path, fd, names, k) && SameDevice(w, path, names, k)
    ensures StepsOk(w, path, fd, names, k) ==> AllThere(w, path, names, k)
  {
    if 0 < k {
      StepsIff(w, path, fd, names, k - 1);
      StepsMore(w, path, fd, names, k - 1);
      LeadMore(w, path, fd, names, k - 1);
      DeviceMore(w, path, names, k - 1);
      if StepsOk(w, path, fd, names, k - 1) {
        StepIff(w, path, fd, names, k - 1);
      }
    }
  }

  lemma VisitIff(w: World, path: string, names: seq<string>, v: Visit)
    requires AllThere(w, path, names, |names| + 1)
    ensures var p := At(path, names, |names|);
      v == Here(w, p, HistoryAt(w, path, names, |names|), w.lstat(p).value) <==> IsVisit(w, path, names, v)
  {
    ChainIs(w, path, names, |names|, w.lstat(At(path, names, |names|)).value);
  }

  /** What the recursion reaches, in plain terms. */
  lemma ReachedIff(w: World, path: string, fd: nat, names: seq<string>, v: Visit)
    ensures Reached(w, path, Top, fd, names, v) <==> LeadsTo(w, path, fd, names, v)
  {
    var n := |names|;
    assert names[0..] == names;
    OnwardFrom(w, path, fd, names, v, n);
    StepsIff(w, path, fd, names, n);
    DeviceMore(w, path, names, n);
    if StepsOk(w, path, fd, names, n) {
      LastStep(w, path, fd, names, v);
      NodeIff(w, path, names, n);
      if w.lstat(At(path, names, n)).Some? { VisitIff(w, path, names, v); }
    }
  }

  /** A walk that returns 0 has called fn for exactly the ways down that there are. */
  lemma CallsAreWays(w: World, path: string, fd: nat, v: Visit)
    requires Result(w, Walk(w, path, Top, fd)) == 0
    ensures v in Calls(w, Walk(w, path, Top, fd)) <==> exists names :: LeadsTo(w, path, fd, names, v)
  {
    CallsAreReached(w, path, fd, v);
    forall names: seq<string> ensures Reached(w, path, Top, fd, names, v) <==> LeadsTo(w, path, fd, names, v) {
      ReachedIff(w, path, fd, names, v);
    }
  }

  /** What fn returns for a file ends the walk there, FTW_SKIP_SUBTREE too. */
  lemma FileVerdict(w: World, path: string, h: History, fd: nat, st: Stat)
    requires w.lstat(path) == Some(st) && !(w.mount && h.Above? && st.dev != h.dev)
    requires !st.kind.Dir? || !st.readable
    ensures Calls(w, Walk(w, path, h, fd)) == [Here(w, path, h, st)]
    ensures Result(w, Walk(w, path, h, fd)) == w.fn(Here(w, path, h, st))
  {
    NodeEvents(w, path, h, fd, st);
  }

  lemma ChildIs(path: string, name: string)
    requires IsName(name)
    ensures var c := Child(path, name);
      && Stem(c) == c && |name| < |c| <= |path| + 1 + |name| && EndsIn(c, name)
      && (|c| == |path| + 1 + |name| <==> Stem(path) == path)
  {
  }

  /** The last component of the path. */
  ghost predicate EndsIn(path: string, name: string) {
    0 < |name| < |path| && path[|path| - |name| - 1..] == "/" + name
  }

  /** What is known of a visit: its depth, its path and, with FTW_MOUNT, its device. */
  lemma {:induction false} ReachedIs(w: World, path: string, h: History, fd: nat, names: seq<string>, v: Visit)
    requires WorldOk(w) && Reached(w, path, h, fd, names, v) && |path| <= w.pathMax
    ensures |names| <= fd && v.level == Level(h) + |names| && |v.path| <= w.pathMax
    ensures w.lstat(v.path).Some? && w.lstat(path).Some?
    ensures w.mount ==> w.lstat(v.path).value.dev == w.lstat(path).value.dev
    ensures names != [] ==>
      var n := names[|names| - 1];
      IsName(n) && EndsIn(v.path, n) && (v.base == |v.path| - |n| <==> 1 < |names| || Stem(path) == path)
    decreases |names|
  {
    if names != [] {
      var st := w.lstat(path).value;
      var child := Child(path, names[0]);
      assert IsName(names[0]);
      ChildIs(path, names[0]);
      ReachedIs(w, child, Extend(path, h, st), fd - 1, names[1..], v);
      if |names| == 1 {
        assert v.path == child;
      } else {
        assert names[1..][|names| - 2] == names[|names| - 1];
      }
    }
  }

  /** Where the text behind the last slash begins. */
  function NameStart(path: string): nat {
    if '/' in path then LastSlash(path) + 1 else 0
  }

  /** The base offset is right if and only if the visit is that of a root without
      a slash, lies in a root without a slash at its end, or lies deeper. */
  lemma BaseIff(w: World, path: string, fd: nat, names: seq<string>, v: Visit)
    requires WorldOk(w) && Reached(w, path, Top, fd, names, v) && |path| <= w.pathMax
    ensures v.base == NameStart(v.path) <==>
      match |names| case 0 => '/' !in path case 1 => Stem(path) == path case _ => true
  {
    if names != [] {
      ReachedIs(w, path, Top, fd, names, v);
      SlashBefore(v.path, names[|names| - 1]);
    }
  }

  lemma SlashBefore(path: string, n: string)
    requires IsName(n) && |n| < |path| && path[|path| - |n| - 1..] == "/" + n
    ensures NameStart(path) == |path| - |n|
  {
    var k := |path| - |n| - 1;
    var tail := path[k..];
    assert path[k] == tail[0] == '/';
    forall i | k < i < |path| ensures path[i] != '/' {
      assert path[i] == tail[i - k] == n[i - k - 1];
    }
  }
}
