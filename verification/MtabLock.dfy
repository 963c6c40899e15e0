/** The lock protocol of /etc/mtab: any number of processes, each with a child,
    exclude each other with link and rename and clean up by inode number. */
module MtabLock {
  import opened Basics
  import opened MtabUpdate

  /** /etc/mtab, /etc/mtab~ and /etc/mtab~.<pid> */
  datatype Name = MTab | Lock | PidFile(pid: nat)

  /** Where the child is. Linking counts the failed attempts; Writing holds the
      inode of the table that was opened for reading and how many entries were
      added to the new file. Dead: it failed or was killed. */
  datatype Child = Linking(tries: nat) | Locked | Writing(src: nat, done: nat) | Exited | Dead

  datatype Parent = Waiting | Unlinking | Testing | Removing | Closing | Gone

  /** One call of au_update_mtab. Parent and child hold the file `ino` open. */
  datatype Run = Run(pid: nat, ino: nat, upd: Update, child: Child, parent: Parent)

  datatype Event = Acquire(r: nat) | Commit(r: nat, upd: Update) | Drop(r: nat)

  /** Runs have numbers that are never used again; pids and inodes are reused. */
  datatype State = State(names: map<Name, nat>, data: map<nat, seq<Ent>>, runs: map<nat, Run>, hist: seq<Event>)

  datatype Action =
    | Create(r: nat, pid: nat, ino: nat, upd: Update)
    | Link(r: nat)
    | OpenTable(r: nat)
    | AddEnt(r: nat)
    | Rename(r: nat)
    | KillChild(r: nat)
    | Wait(r: nat)
    | UnlinkPid(r: nat)
    | StatLock(r: nat)
    | UnlinkLock(r: nat)
    | Close(r: nat)
    | KillParent(r: nat)

  predicate Alive(c: Child) { c.Linking? || c.Locked? || c.Writing? }

  /** Between link and rename. */
  predicate Critical(c: Child) { c.Locked? || c.Writing? }

  predicate Open(run: Run) { Alive(run.child) || !run.parent.Gone? }

  /** An inode number can be given out again once no name and no process has it. */
  ghost predicate Free(s: State, ino: nat) {
    ino !in s.names.Values && forall q :: q in s.runs && Open(s.runs[q]) ==> s.runs[q].ino != ino
  }

  ghost predicate Enabled(s: State, a: Action) {
    if a.Create? then a.r !in s.runs && PidFile(a.pid) !in s.names && Free(s, a.ino)
    else
      && a.r in s.runs
      && var run := s.runs[a.r];
      match a
      case Link(_) => run.child.Linking? && run.child.tries < 5
      case OpenTable(_) => run.child.Locked?
      case AddEnt(_) => (run.child.Writing? && run.ino in s.data && run.child.src in s.data
                         && run.child.done < |Applied(run.upd, s.data[run.child.src])|)
      case Rename(_) => (run.child.Writing? && run.child.src in s.data
                         && run.child.done == |Applied(run.upd, s.data[run.child.src])|)
      case KillChild(_) => Alive(run.child)
      case Wait(_) => run.parent.Waiting? && !Alive(run.child)
      case UnlinkPid(_) => run.parent.Unlinking?
      case StatLock(_) => run.parent.Testing?
      case UnlinkLock(_) => run.parent.Removing?
      case Close(_) => run.parent.Closing?
      case KillParent(_) => !run.parent.Gone?
  }

  /** rename(2): it does nothing when both names are the same file. */
  function Renamed(names: map<Name, nat>): map<Name, nat>
    requires Lock in names
  {
    if MTab in names && names[MTab] == names[Lock] then names
    else (names - {Lock})[MTab := names[Lock]]
  }

  function WithChild(s: State, r: nat, c: Child): State
    requires r in s.runs
  {
    s.(runs := s.runs[r := s.runs[r].(child := c)])
  }

  function WithParent(s: State, r: nat, p: Parent): State
    requires r in s.runs
  {
    s.(runs := s.runs[r := s.runs[r].(parent := p)])
  }

  ghost function Apply(s: State, a: Action): State
    requires Enabled(s, a)
  {
    match a
    case Create(r, pid, ino, upd) =>
      State(s.names[PidFile(pid) := ino], s.data[ino := []],
            s.runs[r := Run(pid, ino, upd, Linking(0), Waiting)], s.hist)
    case Link(r) =>
      var run := s.runs[r];
      if PidFile(run.pid) in s.names && Lock !in s.names
      then
        var s1 := WithChild(s, r, Locked);
        s1.(names := s.names[Lock := s.names[PidFile(run.pid)]], hist := s.hist + [Acquire(r)])
      else WithChild(s, r, if run.child.tries == 4 then Dead else Linking(run.child.tries + 1))
    case OpenTable(r) =>
      WithChild(s, r, if MTab in s.names then Writing(s.names[MTab], 0) else Dead)
    case AddEnt(r) =>
      var run := s.runs[r];
      var Writing(src, done) := run.child;
      var s1 := WithChild(s, r, Writing(src, done + 1));
      s1.(data := s.data[run.ino := s.data[run.ino] + [Applied(run.upd, s.data[src])[done]]])
    case Rename(r) =>
      if Lock in s.names
      then
        var s1 := WithChild(s, r, Exited);
        s1.(names := Renamed(s.names), hist := s.hist + [Commit(r, s.runs[r].upd)])
      else WithChild(s, r, Dead)
    case KillChild(r) => WithChild(s, r, Dead)
    case Wait(r) => WithParent(s, r, Unlinking)
    case UnlinkPid(r) =>
      var s1 := WithParent(s, r, Testing);
      s1.(names := s.names - {PidFile(s.runs[r].pid)})
    case StatLock(r) =>
      WithParent(s, r, if Lock in s.names && s.names[Lock] == s.runs[r].ino then Removing else Closing)
    case UnlinkLock(r) =>
      var s1 := WithParent(s, r, Closing);
      if Lock in s.names then s1.(names := s.names - {Lock}, hist := s.hist + [Drop(r)]) else s1
    case Close(r) => WithParent(s, r, Gone)
    case KillParent(r) => WithParent(s, r, Gone)
  }

  // ---- what a history says

  /** Who made the lock file that is there now. */
  function Holder(hist: seq<Event>): Option<nat> {
    if hist != [] && hist[|hist| - 1].Acquire? then Some(hist[|hist| - 1].r) else None
  }

  /** The lock is taken when it is free, and ended by the run that took it. */
  ghost predicate Bracketed(hist: seq<Event>) {
    hist == [] ||
    var n := |hist| - 1;
    Bracketed(hist[..n]) && Holder(hist[..n]) == if hist[n].Acquire? then None else Some(hist[n].r)
  }

  /** The committed updates applied one after the other, in the order of the lock. */
  function Table(init: seq<Ent>, hist: seq<Event>): seq<Ent> {
    if hist == [] then init
    else
      var n := |hist| - 1;
      var t := Table(init, hist[..n]);
      if hist[n].Commit? then Applied(hist[n].upd, t) else t
  }

  ghost predicate Did(runs: map<nat, Run>, r: nat, upd: Update) {
    r in runs && runs[r].child.Exited? && runs[r].upd == upd
  }

  // ---- the invariant

  /** Runs whose inode number cannot have been given out again. */
  ghost predicate Tied(s: State, r: nat) {
    r in s.runs && (Open(s.runs[r]) || Holder(s.hist) == Some(r))
  }

  ghost predicate Distinct(s: State) {
    forall q, r :: Tied(s, q) && Tied(s, r) && q != r ==> s.runs[q].ino != s.runs[r].ino
  }

  ghost predicate Names(s: State, n: Name, ino: nat) { n in s.names && s.names[n] == ino }

  ghost predicate RunOk(s: State, r: nat)
    requires r in s.runs
  {
    var run := s.runs[r];
    && (Alive(run.child) || run.parent.Waiting? || run.parent.Unlinking? ==> Names(s, PidFile(run.pid), run.ino))
    && (run.parent.Waiting? || run.parent.Gone? || !Alive(run.child))
    && (Critical(run.child) || run.parent.Removing? ==> Holder(s.hist) == Some(r))
    && (run.parent.Closing? ==> Holder(s.hist) != Some(r))
    && (Tied(s, r) && Names(s, MTab, run.ino) ==> run.child.Exited?)
    && (Alive(run.child) ==> FileOk(s, run))
  }

  /** What the new file holds while the child lives. */
  ghost predicate FileOk(s: State, run: Run) {
    && run.ino in s.data
    && if run.child.Writing? then
         && Names(s, MTab, run.child.src) && run.child.src in s.data
         && var all := Applied(run.upd, s.data[run.child.src]);
         run.child.done <= |all| && s.data[run.ino] == all[..run.child.done]
       else s.data[run.ino] == []
  }

  ghost predicate RunsOk(s: State) { forall r :: r in s.runs ==> RunOk(s, r) }

  ghost predicate LockOk(s: State) {
    && (Lock in s.names <==> Holder(s.hist).Some?)
    && (Holder(s.hist).Some? ==>
          var h := Holder(s.hist).value;
          && h in s.runs && Names(s, Lock, s.runs[h].ino)
          && !s.runs[h].child.Exited? && !s.runs[h].child.Linking?)
  }

  ghost predicate TableOk(init: seq<Ent>, s: State) {
    MTab in s.names ==> s.names[MTab] in s.data && s.data[s.names[MTab]] == Table(init, s.hist)
  }

  /** Exactly the runs whose child exited have committed, once each. */
  ghost predicate CommitsOk(s: State) {
    forall r, u :: multiset(s.hist)[Commit(r, u)] == One(Did(s.runs, r, u))
  }

  ghost predicate Inv(init: seq<Ent>, s: State) { RunsOk(s) && FilesOk(init, s) }

  ghost predicate FilesOk(init: seq<Ent>, s: State) {
    Distinct(s) && LockOk(s) && TableOk(init, s) && Bracketed(s.hist) && CommitsOk(s)
  }

  /** No run is under way and no lock file was left behind. */
  ghost predicate Init(init: seq<Ent>, s: State) {
    && s.runs == map[] && s.hist == [] && Lock !in s.names
    && (MTab in s.names ==> s.names[MTab] in s.data && s.data[s.names[MTab]] == init)
  }

  lemma InitInv(init: seq<Ent>, s: State)
    requires Init(init, s)
    ensures Inv(init, s)
  {
  }

  // ---- every step keeps it

  lemma HistGrows(hist: seq<Event>, e: Event)
    requires Bracketed(hist) && Holder(hist) == if e.Acquire? then None else Some(e.r)
    ensures Bracketed(hist + [e]) && (hist + [e])[..|hist|] == hist
    ensures Holder(hist + [e]) == if e.Acquire? then Some(e.r) else None
    ensures multiset(hist + [e]) == multiset(hist) + multiset{e}
  {
  }

  ghost predicate CanLink(s: State, r: nat)
    requires r in s.runs
  {
    PidFile(s.runs[r].pid) in s.names && Lock !in s.names
  }

  /** Actions that leave the history alone, and the names MTab and Lock. */
  ghost predicate Quiet(s: State, a: Action) {
    !a.Create? && !a.Rename? && !a.UnlinkLock? && (a.Link? ==> a.r in s.runs && !CanLink(s, a.r))
  }

  lemma NewInode(s: State, a: Action)
    requires a.Create? && Enabled(s, a)
    ensures forall n :: n in s.names ==> s.names[n] != a.ino
    ensures forall q :: q in s.runs && Open(s.runs[q]) ==> s.runs[q].ino != a.ino
  {
    forall n | n in s.names ensures s.names[n] != a.ino {
      assert s.names[n] in s.names.Values;
    }
  }

  // -- each run

  lemma CreateRun(init: seq<Ent>, s: State, a: Action, q: nat)
    requires Inv(init, s) && a.Create? && Enabled(s, a) && q in Apply(s, a).runs
    ensures RunOk(Apply(s, a), q)
  {
    NewInode(s, a);
    if q != a.r { assert RunOk(s, q); }
  }

  lemma LinkRun(init: seq<Ent>, s: State, a: Action, q: nat)
    requires Inv(init, s) && a.Link? && Enabled(s, a) && CanLink(s, a.r) && q in s.runs
    ensures RunOk(Apply(s, a), q)
  {
    assert RunOk(s, q);
    HistGrows(s.hist, Acquire(a.r));
  }

  lemma RenameRun(init: seq<Ent>, s: State, a: Action, q: nat)
    requires Inv(init, s) && a.Rename? && Enabled(s, a) && q in s.runs
    ensures RunOk(Apply(s, a), q)
  {
    assert RunOk(s, q) && RunOk(s, a.r) && Tied(s, a.r);
    HistGrows(s.hist, Commit(a.r, s.runs[a.r].upd));
    assert Tied(Apply(s, a), q) ==> Tied(s, q);
  }

  lemma UnlinkLockRun(init: seq<Ent>, s: State, a: Action, q: nat)
    requires Inv(init, s) && a.UnlinkLock? && Enabled(s, a) && q in s.runs
    ensures RunOk(Apply(s, a), q)
  {
    assert RunOk(s, q) && RunOk(s, a.r);
    HistGrows(s.hist, Drop(a.r));
  }

  lemma AddRun(init: seq<Ent>, s: State, a: Action, q: nat)
    requires Inv(init, s) && a.AddEnt? && Enabled(s, a) && q in s.runs
    ensures RunOk(Apply(s, a), q)
  {
    assert RunOk(s, q) && RunOk(s, a.r) && Tied(s, a.r);
    assert Open(s.runs[q]) ==> Tied(s, q);
  }

  lemma ChildRun(init: seq<Ent>, s: State, a: Action, q: nat)
    requires Inv(init, s) && Quiet(s, a) && Enabled(s, a) && q in s.runs
    requires a.Link? || a.OpenTable? || a.KillChild?
    ensures RunOk(Apply(s, a), q)
  {
    assert RunOk(s, q) && RunOk(s, a.r);
    assert Open(s.runs[q]) ==> Tied(s, q);
  }

  lemma ParentRun(init: seq<Ent>, s: State, a: Action, q: nat)
    requires Inv(init, s) && Enabled(s, a) && q in s.runs
    requires a.Wait? || a.UnlinkPid? || a.StatLock? || a.Close? || a.KillParent?
    ensures RunOk(Apply(s, a), q)
  {
    assert RunOk(s, q) && RunOk(s, a.r);
    assert Open(s.runs[q]) ==> Tied(s, q);
    assert Open(s.runs[a.r]) ==> Tied(s, a.r);
    if a.StatLock? { InodeTest(init, s, a.r); }
  }

  lemma RunsKept(init: seq<Ent>, s: State, a: Action)
    requires Inv(init, s) && Enabled(s, a)
    ensures RunsOk(Apply(s, a))
  {
    forall q | q in Apply(s, a).runs ensures RunOk(Apply(s, a), q) {
      if a.Create? { CreateRun(init, s, a, q); }
      else if a.Rename? { RenameRun(init, s, a, q); }
      else if a.UnlinkLock? { UnlinkLockRun(init, s, a, q); }
      else if a.AddEnt? { AddRun(init, s, a, q); }
      else if !Quiet(s, a) { LinkRun(init, s, a, q); }
      else if a.Link? || a.OpenTable? || a.KillChild? { ChildRun(init, s, a, q); }
      else { ParentRun(init, s, a, q); }
    }
  }

  // -- the files

  /** Taking or dropping the lock commits nothing. */
  lemma NoCommit(s: State, s': State, e: Event)
    requires CommitsOk(s) && !e.Commit? && s'.hist == s.hist + [e]
    requires forall r, u :: Did(s'.runs, r, u) == Did(s.runs, r, u)
    ensures CommitsOk(s')
  {
    forall r, u ensures multiset(s'.hist)[Commit(r, u)] == One(Did(s'.runs, r, u)) {
      assert multiset(s.hist)[Commit(r, u)] == One(Did(s.runs, r, u));
    }
  }

  lemma CreateFiles(init: seq<Ent>, s: State, a: Action)
    requires Inv(init, s) && a.Create? && Enabled(s, a)
    ensures FilesOk(init, Apply(s, a))
  {
    var s' := Apply(s, a);
    NewInode(s, a);
    assert forall q :: Tied(s', q) && q != a.r ==> Tied(s, q);
    assert forall q :: Tied(s, q) ==> s.runs[q].ino != a.ino;
    assert forall q, u :: Did(s'.runs, q, u) == Did(s.runs, q, u);
  }

  lemma LinkFiles(init: seq<Ent>, s: State, a: Action)
    requires Inv(init, s) && a.Link? && Enabled(s, a) && CanLink(s, a.r)
    ensures FilesOk(init, Apply(s, a))
  {
    var s' := Apply(s, a);
    assert RunOk(s, a.r) && Tied(s, a.r);
    HistGrows(s.hist, Acquire(a.r));
    assert forall q :: Tied(s', q) ==> Tied(s, q);
    LinkCommits(s, a);
  }

  lemma LinkCommits(s: State, a: Action)
    requires a.Link? && Enabled(s, a) && CanLink(s, a.r) && CommitsOk(s)
    ensures CommitsOk(Apply(s, a))
  {
    NoCommit(s, Apply(s, a), Acquire(a.r));
  }

  lemma RenameFiles(init: seq<Ent>, s: State, a: Action)
    requires Inv(init, s) && a.Rename? && Enabled(s, a)
    ensures FilesOk(init, Apply(s, a))
  {
    var s' := Apply(s, a);
    assert RunOk(s, a.r) && Tied(s, a.r);
    HistGrows(s.hist, Commit(a.r, s.runs[a.r].upd));
    assert forall q :: Tied(s', q) ==> Tied(s, q);
    RenameCommits(s, a);
  }

  lemma RenameCommits(s: State, a: Action)
    requires a.Rename? && Enabled(s, a) && Lock in s.names && CommitsOk(s)
    ensures CommitsOk(Apply(s, a))
  {
    var s' := Apply(s, a);
    forall q, u ensures multiset(s'.hist)[Commit(q, u)] == One(Did(s'.runs, q, u)) {
      assert multiset(s.hist)[Commit(q, u)] == One(Did(s.runs, q, u));
    }
  }

  lemma UnlinkLockFiles(init: seq<Ent>, s: State, a: Action)
    requires Inv(init, s) && a.UnlinkLock? && Enabled(s, a)
    ensures FilesOk(init, Apply(s, a))
  {
    var s' := Apply(s, a);
    assert RunOk(s, a.r);
    HistGrows(s.hist, Drop(a.r));
    assert forall q :: Tied(s', q) ==> Tied(s, q);
    NoCommit(s, s', Drop(a.r));
  }

  lemma ChildFiles(init: seq<Ent>, s: State, a: Action)
    requires Inv(init, s) && Quiet(s, a) && Enabled(s, a) && (a.Link? || a.OpenTable? || a.KillChild?)
    ensures FilesOk(init, Apply(s, a))
  {
    var s' := Apply(s, a);
    assert RunOk(s, a.r) && (Open(s.runs[a.r]) ==> Tied(s, a.r));
    assert forall q :: Tied(s', q) ==> Tied(s, q) && s'.runs[q].ino == s.runs[q].ino;
    assert forall q, u :: Did(s'.runs, q, u) == Did(s.runs, q, u);
  }

  lemma AddFiles(init: seq<Ent>, s: State, a: Action)
    requires Inv(init, s) && Quiet(s, a) && Enabled(s, a) && (a.AddEnt? || a.UnlinkPid?)
    ensures FilesOk(init, Apply(s, a))
  {
    var s' := Apply(s, a);
    assert RunOk(s, a.r) && (Open(s.runs[a.r]) ==> Tied(s, a.r));
    assert forall q :: Tied(s', q) ==> Tied(s, q) && s'.runs[q].ino == s.runs[q].ino;
    assert forall q, u :: Did(s'.runs, q, u) == Did(s.runs, q, u);
  }

  lemma ParentFiles(init: seq<Ent>, s: State, a: Action)
    requires Inv(init, s) && Quiet(s, a) && Enabled(s, a) && (a.Wait? || a.StatLock? || a.Close? || a.KillParent?)
    ensures FilesOk(init, Apply(s, a))
  {
    var s' := Apply(s, a);
    assert RunOk(s, a.r) && (Open(s.runs[a.r]) ==> Tied(s, a.r));
    assert forall q :: Tied(s', q) ==> Tied(s, q) && s'.runs[q].ino == s.runs[q].ino;
    assert forall q, u :: Did(s'.runs, q, u) == Did(s.runs, q, u);
  }

  lemma InvKept(init: seq<Ent>, s: State, a: Action)
    requires Inv(init, s) && Enabled(s, a)
    ensures Inv(init, Apply(s, a))
  {
    RunsKept(init, s, a);
    if a.Create? { CreateFiles(init, s, a); }
    else if a.Rename? { RenameFiles(init, s, a); }
    else if a.UnlinkLock? { UnlinkLockFiles(init, s, a); }
    else if !Quiet(s, a) { LinkFiles(init, s, a); }
    else if a.Link? || a.OpenTable? || a.KillChild? { ChildFiles(init, s, a); }
    else if a.AddEnt? || a.UnlinkPid? { AddFiles(init, s, a); }
    else { ParentFiles(init, s, a); }
  }

  // ---- what holds over every run

  ghost predicate Steps(s: State, acts: seq<Action>, s': State)
    decreases |acts|
  {
    if acts == [] then s == s'
    else Enabled(s, acts[0]) && Steps(Apply(s, acts[0]), acts[1..], s')
  }

  lemma {:induction false} InvReached(init: seq<Ent>, s: State, acts: seq<Action>, s': State)
    requires Inv(init, s) && Steps(s, acts, s')
    ensures Inv(init, s')
    decreases |acts|
  {
    if acts != [] {
      InvKept(init, s, acts[0]);
      InvReached(init, Apply(s, acts[0]), acts[1..], s');
    }
  }

  /** The inode test of a parent that still holds the file open is exact: the lock
      file has its number if and only if its own child made the lock file. */
  lemma InodeTest(init: seq<Ent>, s: State, r: nat)
    requires Inv(init, s) && r in s.runs && !s.runs[r].parent.Gone?
    ensures Names(s, Lock, s.runs[r].ino) <==> Holder(s.hist) == Some(r)
  {
  }

  /** In every reachable state at most one process is between link and rename. */
  lemma Exclusion(init: seq<Ent>, s0: State, acts: seq<Action>, s: State, q: nat, r: nat)
    requires Init(init, s0) && Steps(s0, acts, s)
    requires q in s.runs && r in s.runs && Critical(s.runs[q].child) && Critical(s.runs[r].child)
    ensures q == r && Names(s, Lock, s.runs[r].ino)
  {
    InitInv(init, s0);
    InvReached(init, s0, acts, s);
    assert RunOk(s, q) && RunOk(s, r);
  }

  /** The lock file is renamed or unlinked only by the pair that made it, and its
      rename and its unlink always find it. */
  lemma OwnLockOnly(init: seq<Ent>, s0: State, acts: seq<Action>, s: State, a: Action)
    requires Init(init, s0) && Steps(s0, acts, s) && Enabled(s, a)
    ensures Lock in s.names && !Names(Apply(s, a), Lock, s.names[Lock]) <==> a.Rename? || a.UnlinkLock?
    ensures a.Rename? || a.UnlinkLock? ==> Names(s, Lock, s.runs[a.r].ino) && Holder(s.hist) == Some(a.r)
    ensures a.Rename? || a.UnlinkLock? ==> Lock !in Apply(s, a).names
  {
    InitInv(init, s0);
    InvReached(init, s0, acts, s);
    if !a.Create? { assert RunOk(s, a.r); }
    if a.Rename? { assert Tied(s, a.r); }
  }

  /** In any run the table is the old one with the committed updates applied in the
      order of the lock; a run commits once if its child exited, and never else. */
  lemma Serializable(init: seq<Ent>, s0: State, acts: seq<Action>, s: State)
    requires Init(init, s0) && Steps(s0, acts, s)
    ensures TableOk(init, s)
    ensures Bracketed(s.hist)
    ensures forall r, u :: multiset(s.hist)[Commit(r, u)] == One(Did(s.runs, r, u))
    ensures forall r :: r in s.runs && s.runs[r].parent.Closing? ==> Holder(s.hist) != Some(r)
  {
    InitInv(init, s0);
    InvReached(init, s0, acts, s);
    forall r | r in s.runs && s.runs[r].parent.Closing? ensures Holder(s.hist) != Some(r) {
      assert RunOk(s, r);
    }
  }

  /** The critical sections do not overlap: what follows taking the lock is its
      commit or its drop, by the same run. */
  lemma {:induction false} Sections(hist: seq<Event>, i: nat)
    requires Bracketed(hist) && i + 1 < |hist|
    ensures hist[i].Acquire? ==> !hist[i + 1].Acquire? && hist[i + 1].r == hist[i].r
    ensures !hist[i].Acquire? ==> hist[i + 1].Acquire?
    decreases |hist|
  {
    var n := |hist| - 1;
    if i + 1 < n { Sections(hist[..n], i); }
  }

  // ---- how often the lock is tried for

  /** The calls of link(2) by one child. */
  function LinkCalls(acts: seq<Action>, r: nat): nat {
    if acts == [] then 0 else One(acts[0] == Link(r)) + LinkCalls(acts[1..], r)
  }

  lemma {:induction false} HistStays(s: State, acts: seq<Action>, s': State)
    requires Steps(s, acts, s')
    ensures s.hist <= s'.hist
    decreases |acts|
  {
    if acts != [] { HistStays(Apply(s, acts[0]), acts[1..], s'); }
  }

  /** A child that does not try for the lock never will. */
  lemma {:induction false} TriesNoMore(s: State, acts: seq<Action>, s': State, r: nat)
    requires Steps(s, acts, s') && r in s.runs && !s.runs[r].child.Linking?
    ensures LinkCalls(acts, r) == 0 && r in s'.runs && !s'.runs[r].child.Linking?
    decreases |acts|
  {
    if acts != [] { TriesNoMore(Apply(s, acts[0]), acts[1..], s', r); }
  }

  /** A child tries at most five times, goes on trying up to then, and gives up
      only after the fifth failure. */
  lemma {:induction false} FiveTries(s: State, acts: seq<Action>, s': State, r: nat)
    requires Steps(s, acts, s') && r in s.runs && s.runs[r].child.Linking? && s.runs[r].child.tries < 5
    ensures s.runs[r].child.tries + LinkCalls(acts, r) <= 5 && r in s'.runs
    ensures s'.runs[r].child.Linking? ==> s'.runs[r].child.tries == s.runs[r].child.tries + LinkCalls(acts, r) < 5
    ensures s'.runs[r].child.Dead? && KillChild(r) !in acts && Acquire(r) !in s'.hist ==>
              s.runs[r].child.tries + LinkCalls(acts, r) == 5
    decreases |acts|
  {
    if acts != [] {
      var a, s1 := acts[0], Apply(s, acts[0]);
      HistStays(s1, acts[1..], s');
      if s1.runs[r].child.Linking? {
        FiveTries(s1, acts[1..], s', r);
      } else {
        TriesNoMore(s1, acts[1..], s', r);
        if a == Link(r) && s1.runs[r].child.Locked? {
          assert s1.hist[|s1.hist| - 1] == Acquire(r);
          assert Acquire(r) in s'.hist;
        }
      }
    }
  }

  // ---- a run that nobody disturbs, and one that is killed

  lemma Prepend(s: State, a: Action, acts: seq<Action>, s': State)
    requires Enabled(s, a) && Steps(Apply(s, a), acts, s')
    ensures Steps(s, [a] + acts, s')
  {
  }

  /** The table is replaced, and the lock file and the pid file are gone. */
  ghost predicate Finished(s: State, r: nat, s': State)
    requires r in s.runs
  {
    var run := s.runs[r];
    && s'.names == (s.names - {Lock, PidFile(run.pid)})[MTab := run.ino]
    && s'.hist == s.hist + [Commit(r, run.upd)]
    && r in s'.runs && s'.runs[r] == run.(child := Exited, parent := Gone)
  }

  lemma CleansUp(init: seq<Ent>, s: State, r: nat) returns (acts: seq<Action>, s': State)
    requires Inv(init, s) && Enabled(s, Rename(r)) && s.runs[r].parent.Waiting?
    ensures Steps(s, acts, s') && Finished(s, r, s')
  {
    assert RunOk(s, r) && Tied(s, r);
    var s1 := Apply(s, Rename(r));
    var s2 := Apply(s1, Wait(r));
    var s3 := Apply(s2, UnlinkPid(r));
    var s4 := Apply(s3, StatLock(r));
    s' := Apply(s4, Close(r));
    assert s'.names == (s.names - {Lock, PidFile(s.runs[r].pid)})[MTab := s.runs[r].ino];
    acts := [];
    Prepend(s4, Close(r), acts, s');
    Prepend(s3, StatLock(r), [Close(r)] + acts, s');
    Prepend(s2, UnlinkPid(r), [StatLock(r)] + ([Close(r)] + acts), s');
    Prepend(s1, Wait(r), [UnlinkPid(r)] + ([StatLock(r)] + ([Close(r)] + acts)), s');
    acts := [Wait(r)] + ([UnlinkPid(r)] + ([StatLock(r)] + ([Close(r)] + acts)));
    Prepend(s, Rename(r), acts, s');
    acts := [Rename(r)] + acts;
  }

  lemma {:induction false} Writes(init: seq<Ent>, s: State, r: nat) returns (acts: seq<Action>, s': State)
    requires Inv(init, s) && r in s.runs && s.runs[r].parent.Waiting? && s.runs[r].child.Writing?
    requires s.runs[r].child.src in s.data
    requires s.runs[r].child.done <= |Applied(s.runs[r].upd, s.data[s.runs[r].child.src])|
    ensures Steps(s, acts, s') && Finished(s, r, s')
    decreases |Applied(s.runs[r].upd, s.data[s.runs[r].child.src])| - s.runs[r].child.done
  {
    assert RunOk(s, r) && Tied(s, r);
    var Writing(src, done) := s.runs[r].child;
    if done == |Applied(s.runs[r].upd, s.data[src])| {
      acts, s' := CleansUp(init, s, r);
    } else {
      assert Enabled(s, AddEnt(r));
      InvKept(init, s, AddEnt(r));
      acts, s' := Writes(init, Apply(s, AddEnt(r)), r);
      Prepend(s, AddEnt(r), acts, s');
      acts := [AddEnt(r)] + acts;
    }
  }

  lemma OpensAndWrites(init: seq<Ent>, s: State, r: nat) returns (acts: seq<Action>, s': State)
    requires Inv(init, s) && MTab in s.names
    requires r in s.runs && s.runs[r].parent.Waiting? && s.runs[r].child.Locked?
    ensures Steps(s, acts, s') && Finished(s, r, s')
  {
    var s1 := Apply(s, OpenTable(r));
    InvKept(init, s, OpenTable(r));
    acts, s' := Writes(init, s1, r);
    Prepend(s, OpenTable(r), acts, s');
    acts := [OpenTable(r)] + acts;
  }

  lemma LocksAndWrites(init: seq<Ent>, s: State, r: nat) returns (acts: seq<Action>, s': State)
    requires Inv(init, s) && MTab in s.names && Lock !in s.names
    requires r in s.runs && s.runs[r].parent.Waiting? && s.runs[r].child == Linking(0)
    ensures Steps(s, acts, s')
    ensures s'.names == (s.names - {PidFile(s.runs[r].pid)})[MTab := s.runs[r].ino]
    ensures s'.hist == s.hist + [Acquire(r)] + [Commit(r, s.runs[r].upd)]
  {
    var s1 := Links(init, s, r);
    acts, s' := OpensAndWrites(init, s1, r);
    Prepend(s, Link(r), acts, s');
    acts := [Link(r)] + acts;
    assert s1.names - {Lock, PidFile(s.runs[r].pid)} == s.names - {PidFile(s.runs[r].pid)};
  }

  lemma Links(init: seq<Ent>, s: State, r: nat) returns (s1: State)
    requires Inv(init, s) && Lock !in s.names
    requires r in s.runs && s.runs[r].parent.Waiting? && s.runs[r].child == Linking(0)
    ensures Enabled(s, Link(r)) && s1 == Apply(s, Link(r)) && Inv(init, s1)
    ensures s1.names == s.names[Lock := s.runs[r].ino] && s1.hist == s.hist + [Acquire(r)]
    ensures r in s1.runs && s1.runs[r] == s.runs[r].(child := Locked)
  {
    assert RunOk(s, r);
    s1 := Apply(s, Link(r));
    InvKept(init, s, Link(r));
  }

  lemma TableGrows(init: seq<Ent>, hist: seq<Event>, r: nat, upd: Update)
    ensures Table(init, hist + [Acquire(r)] + [Commit(r, upd)]) == Applied(upd, Table(init, hist))
  {
  }

  /** The table gets the update and a new inode, and no other name is left. */
  ghost predicate CommittedBy(s: State, acts: seq<Action>, s': State, ino: nat, upd: Update)
    requires MTab in s.names && s.names[MTab] in s.data
  {
    && Steps(s, acts, s') && s'.names == s.names[MTab := ino]
    && ino in s'.data && s'.data[ino] == Applied(upd, s.data[s.names[MTab]])
  }

  /** Whenever the lock is free, a new call that runs to its end without being
      disturbed commits its update and leaves neither lock nor pid file. */
  lemma Undisturbed(init: seq<Ent>, s: State, r: nat, pid: nat, ino: nat, upd: Update)
    requires Inv(init, s) && MTab in s.names && Lock !in s.names && Enabled(s, Create(r, pid, ino, upd))
    ensures exists acts: seq<Action>, s': State :: CommittedBy(s, acts, s', ino, upd)
  {
    var s1 := Apply(s, Create(r, pid, ino, upd));
    InvKept(init, s, Create(r, pid, ino, upd));
    var acts, s' := LocksAndWrites(init, s1, r);
    InvReached(init, s1, acts, s');
    TableGrows(init, s.hist, r, upd);
    Prepend(s, Create(r, pid, ino, upd), acts, s');
    assert s'.names == s.names[MTab := ino];
    assert CommittedBy(s, [Create(r, pid, ino, upd)] + acts, s', ino, upd);
  }

  /** Nobody is left who could give the lock back: the parent is gone, and the
      child is dead or will die for want of a table. */
  ghost predicate Orphaned(s: State, h: nat) {
    && Holder(s.hist) == Some(h) && h in s.runs && s.runs[h].parent.Gone?
    && (s.runs[h].child.Dead? || MTab !in s.names)
  }

  /** Then the lock file stays for ever: nobody takes the lock or changes the table again. */
  lemma {:induction false} OrphanedStays(init: seq<Ent>, s: State, acts: seq<Action>, s': State, h: nat)
    requires Inv(init, s) && Orphaned(s, h) && Steps(s, acts, s')
    ensures Orphaned(s', h) && s'.hist == s.hist && Lock in s'.names
    ensures MTab in s'.names <==> MTab in s.names
    ensures MTab in s.names ==> s'.names[MTab] == s.names[MTab]
    decreases |acts|
  {
    if acts != [] {
      var a := acts[0];
      if !a.Create? { assert RunOk(s, a.r); }
      InvKept(init, s, a);
      OrphanedStays(init, Apply(s, a), acts[1..], s', h);
    }
  }

  /** And that happens: from every initial state, when both die behind the link. */
  lemma OrphanReached(init: seq<Ent>, s: State, r: nat, pid: nat, ino: nat, upd: Update)
    requires Init(init, s) && Enabled(s, Create(r, pid, ino, upd))
    ensures exists acts: seq<Action>, s': State :: Steps(s, acts, s') && Orphaned(s', r)
  {
    var a := Create(r, pid, ino, upd);
    var s1 := Apply(s, a);
    InitInv(init, s);
    InvKept(init, s, a);
    var s2 := Links(init, s1, r);
    var s3 := Apply(s2, KillChild(r));
    var s4 := Apply(s3, KillParent(r));
    Prepend(s3, KillParent(r), [], s4);
    Prepend(s2, KillChild(r), [KillParent(r)] + [], s4);
    Prepend(s1, Link(r), [KillChild(r)] + ([KillParent(r)] + []), s4);
    var acts := [Link(r)] + ([KillChild(r)] + ([KillParent(r)] + []));
    Prepend(s, a, acts, s4);
    assert Steps(s, [a] + acts, s4) && Orphaned(s4, r);
  }

  lemma {:induction false} ChildFrees(init: seq<Ent>, s: State, h: nat) returns (acts: seq<Action>, s': State)
    requires Inv(init, s) && h in s.runs && s.runs[h].child.Writing? && s.runs[h].child.src in s.data
    requires s.runs[h].child.done <= |Applied(s.runs[h].upd, s.data[s.runs[h].child.src])|
    ensures Steps(s, acts, s') && Lock !in s'.names
    decreases |Applied(s.runs[h].upd, s.data[s.runs[h].child.src])| - s.runs[h].child.done
  {
    assert RunOk(s, h) && Tied(s, h);
    var Writing(src, done) := s.runs[h].child;
    if done == |Applied(s.runs[h].upd, s.data[src])| {
      s' := Apply(s, Rename(h));
      Prepend(s, Rename(h), [], s');
      acts := [Rename(h)] + [];
    } else {
      InvKept(init, s, AddEnt(h));
      acts, s' := ChildFrees(init, Apply(s, AddEnt(h)), h);
      Prepend(s, AddEnt(h), acts, s');
      acts := [AddEnt(h)] + acts;
    }
  }

  /** What the parent still has to do before it removes the lock file. */
  function Before(p: Parent): nat {
    match p
    case Waiting => 3
    case Unlinking => 2
    case Testing => 1
    case _ => 0
  }

  lemma {:induction false} ParentFrees(init: seq<Ent>, s: State, h: nat) returns (acts: seq<Action>, s': State)
    requires Inv(init, s) && Holder(s.hist) == Some(h) && h in s.runs
    requires s.runs[h].child.Dead? && !s.runs[h].parent.Gone?
    ensures Steps(s, acts, s') && Lock !in s'.names
    decreases Before(s.runs[h].parent)
  {
    assert RunOk(s, h);
    InodeTest(init, s, h);
    var a := match s.runs[h].parent
      case Waiting => Wait(h)
      case Unlinking => UnlinkPid(h)
      case Testing => StatLock(h)
      case _ => UnlinkLock(h);
    s' := Apply(s, a);
    if a.UnlinkLock? {
      acts := [];
    } else {
      InvKept(init, s, a);
      acts, s' := ParentFrees(init, s', h);
    }
    Prepend(s, a, acts, s');
    acts := [a] + acts;
  }

  /** A lock whose holder is not orphaned can be given back. */
  lemma CanBeFreed(init: seq<Ent>, s: State, h: nat) returns (acts: seq<Action>, s': State)
    requires Inv(init, s) && Holder(s.hist) == Some(h) && !Orphaned(s, h)
    ensures Steps(s, acts, s') && Lock !in s'.names
  {
    assert RunOk(s, h);
    if s.runs[h].child.Dead? {
      acts, s' := ParentFrees(init, s, h);
    } else if s.runs[h].child.Writing? {
      acts, s' := ChildFrees(init, s, h);
    } else {
      var a := OpenTable(h);
      InvKept(init, s, a);
      assert RunOk(Apply(s, a), h);
      if MTab in s.names {
        acts, s' := ChildFrees(init, Apply(s, a), h);
      } else {
        acts, s' := ParentFrees(init, Apply(s, a), h);
      }
      Prepend(s, a, acts, s');
      acts := [a] + acts;
    }
  }

  ghost predicate LeadsToFree(s: State, acts: seq<Action>, s': State) {
    Steps(s, acts, s') && Lock !in s'.names
  }

  /** In any state the lock can come free again if and only if no run is orphaned with it. */
  lemma FreedIff(init: seq<Ent>, s: State)
    requires Inv(init, s)
    ensures (exists acts: seq<Action>, s': State :: LeadsToFree(s, acts, s')) <==> !exists h :: Orphaned(s, h)
  {
    if h :| Orphaned(s, h) {
      forall acts: seq<Action>, s': State | Steps(s, acts, s') ensures !LeadsToFree(s, acts, s') {
        OrphanedStays(init, s, acts, s', h);
      }
    } else if Lock in s.names {
      var acts, s' := CanBeFreed(init, s, Holder(s.hist).value);
      assert LeadsToFree(s, acts, s');
    } else {
      assert LeadsToFree(s, [], s);
    }
  }
}
