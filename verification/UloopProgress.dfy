/**
  What gets stuck in the ULOOP protocol and what does not: whatever the readers
  and daemons did before, a new transfer can be carried to its end, past the
  requests and answers that others left in the queues; but a reader waits in
  vain when the daemon that took its request is gone.
  */
module UloopProgress {
  import opened Basics
  import B = UloopBitmap
  import opened UloopProtocol
  import Arith
  import UloopDaemon

  // ---- who gives up

  /** The wanted page of the bitmap is in the window, or gets there. */
  predicate SwitchWorks(bmp: B.Store, p: nat, w: B.WriteIo, rd: B.ReadIo) {
    p == bmp.idx || (p < |bmp.file| && w.Written? && rd.Loaded?)
  }

  /** The step makes the transfer of reader r fail. */
  ghost predicate Breaks(env: Env, s: State, a: Action, r: nat)
    requires WellFormed(env, s) && Enabled(env, s, a) && r in s.readers && !s.readers[r].Failed?
  {
    a == Interrupt(r) || a == Kill(r, false)
    || (Switches(a) && a.r == r && !SwitchWorks(s.bmp, PIndex(env, s.readers[r].x), a.w, a.rd))
  }

  lemma SwitchFailsIff(env: Env, s: State, a: Action, r: nat)
    requires WellFormed(env, s) && Enabled(env, s, a) && Switches(a) && r in s.readers && !s.readers[r].Failed?
    ensures r in Apply(env, s, a).readers && (Apply(env, s, a).readers[r].Failed? <==> Breaks(env, s, a, r))
  {
  }

  /** A transfer under way fails by an interrupt, by a daemon that cannot be woken up
      and by the bitmap, and never by what others do. */
  lemma FailsIff(env: Env, s: State, a: Action, r: nat)
    requires WellFormed(env, s) && Enabled(env, s, a)
    requires r in s.readers && !s.readers[r].Failed? && !s.readers[r].Done?
    ensures r in Apply(env, s, a).readers && (Apply(env, s, a).readers[r].Failed? <==> Breaks(env, s, a, r))
  {
    if Switches(a) { SwitchFailsIff(env, s, a, r); }
  }

  /** The step ends daemon d: it is killed, it finds no request or cannot copy it, or it
      cannot store the page. */
  ghost predicate Ends(s: State, a: Action, d: nat)
    requires d in s.daemons && (a.Fill? && a.d == d ==> s.daemons[d].Serving?)
  {
    || a == Die(d)
    || (a.Receive? && a.d == d && (s.rcv == [] || !a.copied))
    || (a.Fill? && a.d == d
        && (!a.io.Copied? || !UloopDaemon.InCache(s.daemons[d].start, s.daemons[d].size, |s.cache|)))
  }

  lemma DiesIff(env: Env, s: State, a: Action, d: nat)
    requires WellFormed(env, s) && Enabled(env, s, a) && d in s.daemons && !s.daemons[d].Dead?
    ensures d in Apply(env, s, a).daemons && (Apply(env, s, a).daemons[d].Dead? <==> Ends(s, a, d))
  {
  }

  /** Only a new daemon takes the place of a dead one. */
  lemma DeadStays(env: Env, s: State, a: Action, d: nat)
    requires WellFormed(env, s) && Enabled(env, s, a) && d in s.daemons && s.daemons[d].Dead?
    ensures d in Apply(env, s, a).daemons && (Apply(env, s, a).daemons[d].Dead? <==> a != Spawn(d))
  {
  }

  // ---- what can be reached

  /** Something that a daemon does, or that reader r does while it waits. */
  predicate Passive(a: Action, r: nat) {
    || a.Spawn? || a.SayReady? || a.Receive? || a.Fill? || a.Send? || a.Die?
    || ((a.TakeRes? || a.Compare?) && a.r == r)
  }

  ghost predicate AllPassive(acts: seq<Action>, only: Option<nat>) {
    only.Some? ==> forall i :: 0 <= i < |acts| ==> Passive(acts[i], only.value)
  }

  /** A benign run leads there; no other reader takes part if `only` names one. */
  ghost predicate Reaches(env: Env, s: State, s': State, only: Option<nat>) {
    exists acts :: Run(env, s, acts, s', true) && AllPassive(acts, only)
  }

  /** The invariant holds, and the bitmap has a bit for every page. */
  ghost predicate Good(env: Env, s: State) {
    Inv(env, s) && !s.panicked && env.Pages() <= |s.bmp.file| * env.Bits()
  }

  lemma FileKept(env: Env, s: State, a: Action)
    requires Inv(env, s) && Enabled(env, s, a)
    ensures |Apply(env, s, a).bmp.file| == |s.bmp.file|
  {
    if Switches(a) {
      var x := s.readers[a.r].x;
      PageNumber(env, x);
      B.SwitchKeepsFlat(s.bmp, env.Bits(), PIndex(env, x), a.w, a.rd);
    }
  }

  /** One benign step. */
  lemma Go(env: Env, s: State, a: Action, only: Option<nat>) returns (s1: State)
    requires Good(env, s) && Enabled(env, s, a) && Benign(env, s, a)
    requires only.Some? ==> Passive(a, only.value)
    ensures s1 == Apply(env, s, a) && Good(env, s1) && Reaches(env, s, s1, only)
  {
    s1 := Apply(env, s, a);
    InvKept(env, s, a);
    NoPanic(env, s, a);
    FileKept(env, s, a);
    Prepend(env, s, a, s1, [], s1, true);
    assert Run(env, s, [a] + [], s1, true) && AllPassive([a] + [], only);
  }

  lemma Stay(env: Env, s: State, only: Option<nat>)
    ensures Reaches(env, s, s, only)
  {
    assert Run(env, s, [], s, true) && AllPassive([], only);
  }

  lemma Then(env: Env, s: State, s1: State, s2: State, only: Option<nat>)
    requires Reaches(env, s, s1, only) && Reaches(env, s1, s2, only)
    ensures Reaches(env, s, s2, only)
  {
    var acts :| Run(env, s, acts, s1, true) && AllPassive(acts, only);
    Joined(env, s, acts, s1, s2, only);
  }

  lemma {:induction false} Joined(env: Env, s: State, acts: seq<Action>, s1: State, s2: State, only: Option<nat>)
    requires Run(env, s, acts, s1, true) && AllPassive(acts, only) && Reaches(env, s1, s2, only)
    ensures Reaches(env, s, s2, only)
    decreases |acts|
  {
    if acts != [] {
      var next := Apply(env, s, acts[0]);
      assert AllPassive(acts[1..], only);
      Joined(env, next, acts[1..], s1, s2, only);
      var more :| Run(env, next, more, s2, true) && AllPassive(more, only);
      Prepend(env, s, acts[0], next, more, s2, true);
      assert AllPassive([acts[0]] + more, only);
    }
  }

  ghost predicate From(env: Env, s0: State, s: State, only: Option<nat>) {
    Good(env, s) && Reaches(env, s0, s, only)
  }

  /** One more step. */
  lemma GoOn(env: Env, s0: State, s: State, a: Action, only: Option<nat>) returns (s1: State)
    requires From(env, s0, s, only) && Enabled(env, s, a) && Benign(env, s, a)
    requires only.Some? ==> Passive(a, only.value)
    ensures s1 == Apply(env, s, a) && From(env, s0, s1, only)
  {
    s1 := Go(env, s, a, only);
    Then(env, s0, s, s1, only);
  }

  lemma {:induction false} Unused(ks: set<nat>) returns (k: nat)
    ensures k !in ks && forall j <- ks :: j < k
  {
    k := 0;
    if ks != {} {
      var j :| j in ks;
      var rest := Unused(ks - {j});
      assert ks == (ks - {j}) + {j};
      k := if rest <= j then j + 1 else rest;
    }
  }

  ghost predicate At(s: State, r: nat, rd: Reader) { r in s.readers && s.readers[r] == rd }

  // ---- requests and answers under way

  ghost predicate Asked(env: Env, s: State, pos: nat, i: nat) {
    i < |s.rcv| && s.rcv[i] in s.elems && s.elems[s.rcv[i]] == Req(pos, env.page)
  }

  ghost predicate Working(env: Env, s: State, pos: nat, d: nat) {
    d in s.daemons && (s.daemons[d] == Serving(pos, env.page) || s.daemons[d] == Stored(pos, env.page))
  }

  ghost predicate Answered(env: Env, s: State, pos: nat, k: nat) {
    k < |s.res| && s.res[k] in s.elems && s.elems[s.res[k]] == Res(pos, env.page)
  }

  /** A request for the page waits, or a daemon is at it, or an answer waits. */
  ghost predicate InFlight(env: Env, s: State, pos: nat) {
    || (exists i: nat :: Asked(env, s, pos, i))
    || (exists d: nat :: Working(env, s, pos, d))
    || (exists k: nat :: Answered(env, s, pos, k))
  }

  /** A new daemon reports that it is ready. */
  lemma DaemonComes(env: Env, s0: State, s: State, only: Option<nat>) returns (d: nat, s': State)
    requires From(env, s0, s, only)
    ensures From(env, s0, s', only) && s'.readers == s.readers
    ensures s'.rcv == s.rcv && s'.res == s.res
    ensures forall id <- s.elems :: id in s'.elems && s'.elems[id] == s.elems[id]
    ensures d in s'.daemons && s'.daemons[d].Waiting? && s'.ready != []
  {
    d := Unused(s.daemons.Keys);
    var s1 := GoOn(env, s0, s, Spawn(d), only);
    var id := Unused(s1.elems.Keys);
    s' := GoOn(env, s0, s1, SayReady(d, id), only);
  }

  /** The daemon takes the first request. */
  lemma Takes(env: Env, s0: State, s: State, d: nat, i: nat, pos: nat, only: Option<nat>) returns (s': State)
    requires From(env, s0, s, only) && d in s.daemons && s.daemons[d].Waiting? && Asked(env, s, pos, i)
    ensures From(env, s0, s', only) && s'.readers == s.readers
    ensures if i == 0 then Working(env, s', pos, d) else Asked(env, s', pos, i - 1)
  {
    s' := GoOn(env, s0, s, Receive(d, true), only);
    if i != 0 {
      QueueFacts(s, s.rcv[0]);
      QueuePop(s.rcv);
      assert s.rcv[i] == s.rcv[1..][i - 1] && s.rcv[i] in s.rcv[1..];
    }
  }

  /** New daemons take the requests before it, and then the one that is waited for. */
  lemma {:induction false} Reached(env: Env, s0: State, s: State, i: nat, pos: nat, only: Option<nat>)
      returns (d: nat, s': State)
    requires From(env, s0, s, only) && Asked(env, s, pos, i)
    ensures From(env, s0, s', only) && s'.readers == s.readers && Working(env, s', pos, d)
    decreases i
  {
    var s1;
    d, s1 := DaemonComes(env, s0, s, only);
    s' := Takes(env, s0, s1, d, i, pos, only);
    if i != 0 {
      var s2 := s';
      d, s' := Reached(env, s0, s2, i - 1, pos, only);
    }
  }

  /** The daemon fills the page ... */
  lemma Fills(env: Env, s0: State, s: State, d: nat, pos: nat, only: Option<nat>) returns (s': State)
    requires From(env, s0, s, only) && pos % env.page == 0 && Working(env, s, pos, d)
    ensures From(env, s0, s', only) && s'.readers == s.readers
    ensures d in s'.daemons && s'.daemons[d] == Stored(pos, env.page)
  {
    if s.daemons[d].Stored? {
      s' := s;
    } else {
      AbortsIff(env, s, d);
      s' := GoOn(env, s0, s, Fill(d, Copied), only);
    }
  }

  /** ... and sends the answer. */
  lemma Sends(env: Env, s0: State, s: State, d: nat, pos: nat, only: Option<nat>) returns (s': State)
    requires From(env, s0, s, only) && d in s.daemons && s.daemons[d] == Stored(pos, env.page)
    ensures From(env, s0, s', only) && s'.readers == s.readers
    ensures s'.res != [] && Answered(env, s', pos, |s'.res| - 1)
  {
    var id := Unused(s.elems.Keys);
    s' := GoOn(env, s0, s, Send(d, id), only);
  }

  lemma Serves(env: Env, s0: State, s: State, d: nat, pos: nat, only: Option<nat>) returns (k: nat, s': State)
    requires From(env, s0, s, only) && pos % env.page == 0 && Working(env, s, pos, d)
    ensures From(env, s0, s', only) && s'.readers == s.readers && Answered(env, s', pos, k)
  {
    var s1 := Fills(env, s0, s, d, pos, only);
    s' := Sends(env, s0, s1, d, pos, only);
    k := |s'.res| - 1;
  }

  ghost predicate OnlyIs(only: Option<nat>, r: nat) { only.None? || only.value == r }

  /** Only reader r moved. */
  ghost predicate Others(s: State, s': State, r: nat) {
    forall q <- s.readers :: q != r ==> q in s'.readers && s'.readers[q] == s.readers[q]
  }

  predicate ByReader(a: Action) {
    a.Start? || Switches(a) || a.TakeReady? || a.Post? || a.Kill? || a.TakeRes? || a.Compare?
  }

  lemma OthersStep(env: Env, s: State, a: Action)
    requires WellFormed(env, s) && Enabled(env, s, a) && ByReader(a)
    ensures Others(s, Apply(env, s, a), a.r)
  {
  }

  lemma OthersTrans(s: State, s1: State, s2: State, r: nat)
    requires Others(s, s1, r) && Others(s1, s2, r)
    ensures Others(s, s2, r)
  {
  }

  /** A step of reader r, after others of its steps. */
  lemma Moves(env: Env, s0: State, sr: State, s: State, a: Action, only: Option<nat>) returns (s1: State)
    requires From(env, s0, s, only) && Enabled(env, s, a) && Benign(env, s, a) && ByReader(a) && Others(sr, s, a.r)
    requires only.Some? ==> Passive(a, only.value)
    ensures s1 == Apply(env, s, a) && From(env, s0, s1, only) && Others(sr, s1, a.r)
  {
    s1 := GoOn(env, s0, s, a, only);
    OthersStep(env, s, a);
    OthersTrans(sr, s, s1, a.r);
  }

  /** The reader takes an answer and keeps it or passes it on. */
  lemma TakesOne(env: Env, s0: State, s: State, r: nat, x: Xfer, only: Option<nat>) returns (s': State)
    requires From(env, s0, s, only) && At(s, r, Awaiting(x)) && s.res != [] && OnlyIs(only, r)
    ensures From(env, s0, s', only) && Others(s, s', r) && s'.elems == s.elems && s.res[0] in s.elems
    ensures if s.elems[s.res[0]] == Res(x.pos, env.page) then At(s', r, Matched(x, s.res[0]))
            else At(s', r, Awaiting(x)) && s'.res == s.res[1..] + [s.res[0]]
  {
    var s1 := Moves(env, s0, s, s, TakeRes(r), only);
    s' := Moves(env, s0, s, s1, Compare(r), only);
  }

  /** It passes the answers of others on until it meets one of its own. */
  lemma {:induction false} Finds(env: Env, s0: State, s: State, r: nat, x: Xfer, k: nat, only: Option<nat>)
      returns (id: nat, s': State)
    requires From(env, s0, s, only) && At(s, r, Awaiting(x)) && Answered(env, s, x.pos, k) && OnlyIs(only, r)
    ensures From(env, s0, s', only) && Others(s, s', r) && At(s', r, Matched(x, id))
    decreases k
  {
    id := s.res[0];
    s' := TakesOne(env, s0, s, r, x, only);
    if s.elems[id] != Res(x.pos, env.page) {
      var s1 := s';
      id, s' := Finds(env, s0, s1, r, x, k - 1, only);
      OthersTrans(s, s1, s', r);
    }
  }

  /** What is under way for the page becomes an answer. */
  lemma Comes(env: Env, s0: State, s: State, pos: nat, only: Option<nat>) returns (k: nat, s': State)
    requires From(env, s0, s, only) && pos % env.page == 0 && InFlight(env, s, pos)
    ensures From(env, s0, s', only) && s'.readers == s.readers && Answered(env, s', pos, k)
  {
    if j: nat :| Answered(env, s, pos, j) {
      k, s' := j, s;
    } else if d: nat :| Working(env, s, pos, d) {
      k, s' := Serves(env, s0, s, d, pos, only);
    } else {
      var i: nat :| Asked(env, s, pos, i);
      var d, s1 := Reached(env, s0, s, i, pos, only);
      k, s' := Serves(env, s0, s1, d, pos, only);
    }
  }

  lemma Gets(env: Env, s0: State, s: State, r: nat, x: Xfer, only: Option<nat>) returns (id: nat, s': State)
    requires From(env, s0, s, only) && At(s, r, Awaiting(x)) && OnlyIs(only, r)
    requires x.pos % env.page == 0 && InFlight(env, s, x.pos)
    ensures From(env, s0, s', only) && Others(s, s', r) && At(s', r, Matched(x, id))
  {
    var k, s1 := Comes(env, s0, s, x.pos, only);
    id, s' := Finds(env, s0, s1, r, x, k, only);
  }

  // ---- a request that is lost

  /** Reader r waits, or looks at an answer that is not its own, and nothing is
      under way for its page. */
  ghost predicate Lost(env: Env, s: State, r: nat, x: Xfer) {
    && !InFlight(env, s, x.pos)
    && r in s.readers && (s.readers[r].Awaiting? || s.readers[r].Holding?) && s.readers[r].x == x
    && (s.readers[r].Holding? ==> s.readers[r].id in s.elems && s.elems[s.readers[r].id] != Res(x.pos, env.page))
  }

  lemma LostByDaemon(env: Env, s: State, a: Action, r: nat, x: Xfer)
    requires Inv(env, s) && Enabled(env, s, a) && Lost(env, s, r, x)
    requires a.Spawn? || a.SayReady? || a.Fill? || a.Send? || a.Die?
    ensures Lost(env, Apply(env, s, a), r, x)
  {
    var s' := Apply(env, s, a);
    forall i: nat ensures !Asked(env, s', x.pos, i) { assert !Asked(env, s, x.pos, i); }
    forall d: nat ensures !Working(env, s', x.pos, d) { assert !Working(env, s, x.pos, d); }
    forall k: nat ensures !Answered(env, s', x.pos, k) {
      assert !Answered(env, s, x.pos, k);
      assert a.Send? ==> !Working(env, s, x.pos, a.d);
    }
  }

  /** Only a request for the page could make a daemon work on it. */
  lemma ReceiveLost(env: Env, s: State, a: Action, pos: nat)
    requires Inv(env, s) && Enabled(env, s, a) && !InFlight(env, s, pos) && a.Receive?
    ensures !InFlight(env, Apply(env, s, a), pos)
  {
    var s' := Apply(env, s, a);
    assert s.rcv != [] ==> !Asked(env, s, pos, 0);
    forall i: nat ensures !Asked(env, s', pos, i) {
      assert !Asked(env, s, pos, i) && !Asked(env, s, pos, i + 1) && !Asked(env, s, pos, 0);
    }
    forall d: nat ensures !Working(env, s', pos, d) { assert !Working(env, s, pos, d); }
    forall k: nat ensures !Answered(env, s', pos, k) { assert !Answered(env, s, pos, k); }
  }

  lemma LostByReceive(env: Env, s: State, a: Action, r: nat, x: Xfer)
    requires Inv(env, s) && Enabled(env, s, a) && Lost(env, s, r, x) && a.Receive?
    ensures Lost(env, Apply(env, s, a), r, x)
  {
    ReceiveLost(env, s, a, x.pos);
    if s.rcv != [] {
      QueueFacts(s, s.rcv[0]);
      assert !HoldsAt(s.readers, r, s.rcv[0]);
    }
  }

  lemma LostByReader(env: Env, s: State, a: Action, r: nat, x: Xfer)
    requires Inv(env, s) && Enabled(env, s, a) && Lost(env, s, r, x) && (a.TakeRes? || a.Compare?) && a.r == r
    ensures Lost(env, Apply(env, s, a), r, x)
  {
    var s' := Apply(env, s, a);
    assert a.TakeRes? ==> !Answered(env, s, x.pos, 0);
    forall i: nat ensures !Asked(env, s', x.pos, i) { assert !Asked(env, s, x.pos, i); }
    forall d: nat ensures !Working(env, s', x.pos, d) { assert !Working(env, s, x.pos, d); }
    forall k: nat ensures !Answered(env, s', x.pos, k) {
      assert !Answered(env, s, x.pos, k) && !Answered(env, s, x.pos, k + 1);
    }
  }

  lemma {:induction false} LostStays(env: Env, s: State, acts: seq<Action>, s': State, r: nat, x: Xfer)
    requires Inv(env, s) && Lost(env, s, r, x) && Run(env, s, acts, s', true) && AllPassive(acts, Some(r))
    ensures Lost(env, s', r, x)
    decreases |acts|
  {
    if acts != [] {
      var a, s1 := acts[0], Apply(env, s, acts[0]);
      assert Passive(a, r) && AllPassive(acts[1..], Some(r));
      InvKept(env, s, a);
      if a.Receive? {
        LostByReceive(env, s, a, r, x);
      } else if a.TakeRes? || a.Compare? {
        LostByReader(env, s, a, r, x);
      } else {
        LostByDaemon(env, s, a, r, x);
      }
      LostStays(env, s1, acts[1..], s', r, x);
    }
  }

  ghost predicate GetsAnswer(env: Env, s: State, r: nat, x: Xfer, s': State, id: nat) {
    Reaches(env, s, s', Some(r)) && At(s', r, Matched(x, id))
  }

  /** A reader that waits for a page can get an answer without any other reader's help
      exactly when something is still under way for the page: nobody asks again. */
  lemma AnsweredIff(env: Env, s: State, r: nat, x: Xfer)
    requires Good(env, s) && At(s, r, Awaiting(x)) && x.pos % env.page == 0
    ensures (exists s': State, id: nat :: GetsAnswer(env, s, r, x, s', id)) <==> InFlight(env, s, x.pos)
  {
    if InFlight(env, s, x.pos) {
      Stay(env, s, Some(r));
      var id, s' := Gets(env, s, s, r, x, Some(r));
      assert GetsAnswer(env, s, r, x, s', id);
    } else {
      forall s': State, id: nat ensures !GetsAnswer(env, s, r, x, s', id) {
        if Reaches(env, s, s', Some(r)) {
          var acts :| Run(env, s, acts, s', true) && AllPassive(acts, Some(r));
          LostStays(env, s, acts, s', r, x);
        }
      }
    }
  }

  /** There is one daemon at most, and no answer. */
  ghost predicate Alone(s: State, dm: Daemon) {
    s.res == [] && 0 in s.daemons && s.daemons[0] == dm && forall d <- s.daemons :: d == 0
  }

  lemma ComesAlone(env: Env, s0: State, s: State, x: Xfer) returns (s': State)
    requires From(env, s0, s, None) && At(s, 0, Wanting(x)) && s.rcv == s.res == [] && s.daemons == map[]
    ensures From(env, s0, s', None) && At(s', 0, Wanting(x))
    ensures Alone(s', Waiting) && s'.rcv == [] && s'.ready != []
  {
    var s1 := GoOn(env, s0, s, Spawn(0), None);
    var id := Unused(s1.elems.Keys);
    s' := GoOn(env, s0, s1, SayReady(0, id), None);
  }

  lemma PostsAlone(env: Env, s0: State, s: State, x: Xfer) returns (s': State)
    requires From(env, s0, s, None) && At(s, 0, Wanting(x)) && Alone(s, Waiting) && s.rcv == [] && s.ready != []
    ensures From(env, s0, s', None) && At(s', 0, Awaiting(x))
    ensures Alone(s', Waiting) && |s'.rcv| == 1
  {
    var s1 := GoOn(env, s0, s, TakeReady(0), None);
    var s2 := GoOn(env, s0, s1, Post(0), None);
    s' := GoOn(env, s0, s2, Kill(0, true), None);
  }

  lemma TakesAlone(env: Env, s0: State, s: State, x: Xfer) returns (s': State)
    requires From(env, s0, s, None) && At(s, 0, Awaiting(x)) && Alone(s, Waiting) && |s.rcv| == 1
    ensures From(env, s0, s', None) && At(s', 0, Awaiting(x))
    ensures s'.rcv == [] && s'.res == [] && 0 in s'.daemons && forall d <- s'.daemons :: d == 0
  {
    s' := GoOn(env, s0, s, Receive(0, true), None);
  }

  lemma DiesAlone(env: Env, s0: State, s: State, x: Xfer) returns (s': State)
    requires From(env, s0, s, None) && At(s, 0, Awaiting(x))
    requires s.rcv == [] && s.res == [] && 0 in s.daemons && forall d <- s.daemons :: d == 0
    ensures From(env, s0, s', None) && At(s', 0, Awaiting(x)) && !InFlight(env, s', x.pos)
  {
    s' := GoOn(env, s0, s, Die(0), None);
  }

  /** And that happens, for every page that is not marked: a daemon takes the request
      and is killed. */
  lemma LostReached(env: Env, s0: State, pos: nat)
    requires Init(env, s0) && env.Pages() <= |s0.bmp.file| * env.Bits()
    requires pos % env.page == 0 && pos + env.page <= env.CacheSize()
    requires var x := Xfer(pos, env.page, pos, env.page);
      PIndex(env, x) < |s0.bmp.file| && !B.Flat(s0.bmp)[PIndex(env, x)][BitNo(env, x)]
    ensures exists s' :: Reaches(env, s0, s', None) && At(s', 0, Awaiting(Xfer(pos, env.page, pos, env.page)))
                      && !InFlight(env, s', pos)
  {
    var x := Xfer(pos, env.page, pos, env.page);
    InitInv(env, s0);
    Stay(env, s0, None);
    var s1 := GoOn(env, s0, s0, Start(0, pos, env.page), None);
    PageNumber(env, x);
    B.ExecRefines(s1.bmp, env.Bits(), B.Test(PIndex(env, x), BitNo(env, x), B.Written, B.Loaded));
    B.SwitchKeepsFlat(s1.bmp, env.Bits(), PIndex(env, x), B.Written, B.Loaded);
    var s2 := GoOn(env, s0, s1, TestStep(0, B.Written, B.Loaded), None);
    var s3 := ComesAlone(env, s0, s2, x);
    var s4 := PostsAlone(env, s0, s3, x);
    var s5 := TakesAlone(env, s0, s4, x);
    var s6 := DiesAlone(env, s0, s5, x);
  }

  // ---- a new transfer

  /** The reader asks for a page. */
  lemma Asks(env: Env, s0: State, s: State, r: nat, x: Xfer) returns (s': State)
    requires From(env, s0, s, None) && At(s, r, Wanting(x))
    ensures From(env, s0, s', None) && Others(s, s', r) && At(s', r, Awaiting(x)) && InFlight(env, s', x.pos)
  {
    var d, s1 := DaemonComes(env, s0, s, None);
    var s2 := Moves(env, s0, s, s1, TakeReady(r), None);
    s' := Posts(env, s0, s, s2, r, x);
  }

  lemma Posts(env: Env, s0: State, sr: State, s: State, r: nat, x: Xfer) returns (s': State)
    requires From(env, s0, s, None) && Others(sr, s, r) && r in s.readers && s.readers[r].Taken? && s.readers[r].x == x
    ensures From(env, s0, s', None) && Others(sr, s', r) && At(s', r, Awaiting(x)) && InFlight(env, s', x.pos)
  {
    var s1 := Moves(env, s0, sr, s, Post(r), None);
    s' := Moves(env, s0, sr, s1, Kill(r, true), None);
    assert Asked(env, s', x.pos, |s'.rcv| - 1);
  }

  /** The bit of the page is in the window, and set. */
  ghost predicate Shown(env: Env, s: State, x: Xfer)
    requires env.Ok()
  {
    s.bmp.idx == PIndex(env, x) && BitNo(env, x) < |s.bmp.buf| && s.bmp.buf[BitNo(env, x)]
  }

  /** A page is asked for, answered and marked. */
  lemma Fetches(env: Env, s0: State, s: State, r: nat, x: Xfer) returns (s': State)
    requires From(env, s0, s, None) && At(s, r, Wanting(x)) && 0 < x.left && x.pos % env.page == 0
    ensures From(env, s0, s', None) && Others(s, s', r) && Shown(env, s', x)
  {
    var s1 := Asks(env, s0, s, r, x);
    var id, s2 := Gets(env, s0, s1, r, x, None);
    s' := Marks(env, s0, s2, r, x, id);
  }

  lemma Marks(env: Env, s0: State, s: State, r: nat, x: Xfer, id: nat) returns (s': State)
    requires From(env, s0, s, None) && At(s, r, Matched(x, id)) && 0 < x.left
    ensures From(env, s0, s', None) && Others(s, s', r) && Shown(env, s', x)
  {
    InFile(env, s, r, x);
    s' := Moves(env, s0, s, s, MarkStep(r, B.Written, B.Loaded), None);
  }

  lemma Tests(env: Env, s0: State, s: State, r: nat, x: Xfer) returns (s': State)
    requires From(env, s0, s, None) && At(s, r, Looping(x)) && 0 < x.left
    ensures From(env, s0, s', None) && Others(s, s', r) && (Shown(env, s', x) || At(s', r, Wanting(x)))
  {
    InFile(env, s, r, x);
    s' := Moves(env, s0, s, s, TestStep(r, B.Written, B.Loaded), None);
  }

  /** Another reader sees to it that a page is filled and its bit in the window. */
  lemma Helps(env: Env, s0: State, s: State, r: nat, k: nat) returns (s': State)
    requires From(env, s0, s, None) && r !in s.readers && k < env.Pages()
    ensures From(env, s0, s', None) && Others(s, s', r)
    ensures Shown(env, s', Xfer(k * env.page, env.page, k * env.page, env.page))
  {
    var pos := k * env.page;
    var x := Xfer(pos, env.page, pos, env.page);
    PageAt(env, k);
    var s1 := Moves(env, s0, s, s, Start(r, pos, env.page), None);
    s' := Tests(env, s0, s1, r, x);
    OthersTrans(s, s1, s', r);
    if At(s', r, Wanting(x)) {
      var s2 := s';
      s' := Fetches(env, s0, s2, r, x);
      OthersTrans(s, s2, s', r);
    }
  }

  lemma PageAt(env: Env, k: nat)
    requires env.Ok() && k < env.Pages()
    ensures k * env.page % env.page == 0 && k * env.page / env.page == k && k * env.page + env.page <= env.CacheSize()
  {
    UloopDaemon.RoundUpProps(|env.target|, env.page);
    Arith.Compose(k, 0, env.page);
    Arith.Split(env.CacheSize(), env.page);
    Arith.Step(k, env.Pages(), env.page);
  }

  /** Then the transfer goes on with the next page. */
  lemma NextPage(env: Env, s0: State, s: State, r: nat, x: Xfer) returns (s': State)
    requires From(env, s0, s, None) && At(s, r, Looping(x)) && 0 < x.left
    ensures From(env, s0, s', None) && At(s', r, Looping(Advance(env, x)))
  {
    var q := Unused(s.readers.Keys);
    var k := x.pos / env.page;
    InPages(env, s, r, x);
    PageAt(env, k);
    var s1 := Helps(env, s0, s, q, k);
    assert Shown(env, s1, x);
    PageNumber(env, x);
    TestsWindow(env, s1, r, x, BitNo(env, x));
    s' := GoOn(env, s0, s1, TestStep(r, B.Written, B.Loaded), None);
  }

  lemma InPages(env: Env, s: State, r: nat, x: Xfer)
    requires Good(env, s) && At(s, r, Looping(x)) && 0 < x.left
    ensures x.pos / env.page < env.Pages()
  {
    assert ReaderOk(env, s.cache, s.elems, s.readers[r]);
    UloopDaemon.RoundUpProps(|env.target|, env.page);
    Arith.Split(env.CacheSize(), env.page);
    Arith.Below(x.pos, env.Pages(), env.page);
  }

  /** A switch to its page of the bitmap works. */
  lemma InFile(env: Env, s: State, r: nat, x: Xfer)
    requires Good(env, s) && r in s.readers && !s.readers[r].Failed? && s.readers[r].x == x && 0 < x.left
    ensures PIndex(env, x) < |s.bmp.file| && B.SwitchTo(s.bmp, PIndex(env, x), B.Written, B.Loaded).1 == B.Ok
  {
    assert ReaderOk(env, s.cache, s.elems, s.readers[r]);
    InBitmap(env, s.bmp, s.cache, x);
  }

  lemma {:induction false} Completes(env: Env, s0: State, s: State, r: nat, x: Xfer) returns (x': Xfer, s': State)
    requires From(env, s0, s, None) && At(s, r, Looping(x))
    ensures From(env, s0, s', None) && At(s', r, Done(x')) && x'.pos0 == x.pos0 && x'.size == x.size
    decreases x.left
  {
    if x.left <= 0 {
      x' := x;
      s' := GoOn(env, s0, s, Finish(r), None);
    } else {
      var s1 := NextPage(env, s0, s, r, x);
      x', s' := Completes(env, s0, s1, r, Advance(env, x));
    }
  }

  lemma {:induction false} StaysGood(env: Env, s: State, acts: seq<Action>, s': State)
    requires Good(env, s) && Run(env, s, acts, s', true)
    ensures Good(env, s')
    decreases |acts|
  {
    if acts != [] {
      var s1 := Go(env, s, acts[0], None);
      StaysGood(env, s1, acts[1..], s');
    }
  }

  /** Transfer r returned zero, with the target's data if its pages cover the bytes asked for. */
  ghost predicate Served(env: Env, s: State, r: nat, pos: nat, size: nat)
    requires env.Ok()
  {
    && r in s.readers && s.readers[r].Done? && s.readers[r].x.pos0 == pos && s.readers[r].x.size == size
    && (Covered(env.page, pos, size) ==>
          pos + size <= |s.cache| && forall o :: pos <= o < pos + size && o < |env.target| ==> s.cache[o] == env.target[o])
  }

  /** In every state that readers and daemons reach, whoever died or gave up on the
      way, every new transfer within the device can still be carried to its end. */
  lemma NeverStuck(env: Env, s0: State, acts: seq<Action>, s: State, r: nat, pos: nat, size: nat)
    requires Init(env, s0) && Run(env, s0, acts, s, true) && env.Pages() <= |s0.bmp.file| * env.Bits()
    requires r in s.readers ==> s.readers[r].Done? || s.readers[r].Failed?
    requires pos + size <= env.CacheSize()
    ensures exists s' :: Reaches(env, s, s', None) && Served(env, s', r, pos, size)
  {
    InitInv(env, s0);
    StaysGood(env, s0, acts, s);
    Stay(env, s, None);
    var s1 := GoOn(env, s, s, Start(r, pos, size), None);
    var x, s' := Completes(env, s, s1, r, Xfer(pos, size, pos, size));
    DoneIsServed(env, s', r, x);
  }

  lemma DoneIsServed(env: Env, s: State, r: nat, x: Xfer)
    requires Good(env, s) && At(s, r, Done(x))
    ensures Served(env, s, r, x.pos0, x.size)
  {
    assert ReaderOk(env, s.cache, s.elems, s.readers[r]);
    if Covered(env.page, x.pos0, x.size) {
      forall o | x.pos0 <= o < x.pos0 + x.size && o < |env.target| ensures s.cache[o] == env.target[o] {
        ByteDelivered(env, s, r, o);
      }
    }
  }
}
