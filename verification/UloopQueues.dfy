/** The three queues of the ULOOP driver serve first come, first served. */
module UloopQueues {
  import opened Basics
  import opened UloopProtocol

  datatype Queue = Ready | Requests | Answers

  function Waiting(s: State, q: Queue): seq<nat> {
    match q
    case Ready => s.ready
    case Requests => s.rcv
    case Answers => s.res
  }

  /** The answer in hand is not the one that the reader waits for. */
  ghost predicate Unwanted(env: Env, s: State, r: nat)
    requires WellFormed(env, s) && r in s.readers && s.readers[r].Holding?
  {
    s.elems[s.readers[r].id] != Res(s.readers[r].x.pos, env.page)
  }

  /** What a step adds to a queue: a new element, a request, an answer, or one
      that its taker could not use and puts back. */
  ghost function Put(env: Env, s: State, a: Action, q: Queue): seq<nat>
    requires WellFormed(env, s) && Enabled(env, s, a)
  {
    match q
    case Ready => if a.SayReady? then [a.id] else []
    case Requests =>
      if a.Post? then [s.readers[a.r].id]
      else if a.Receive? && s.rcv != [] && !a.copied then [s.rcv[0]] else []
    case Answers =>
      if a.Send? then [a.id]
      else if a.Compare? && Unwanted(env, s, a.r) then [s.readers[a.r].id] else []
  }

  /** What it takes from the queue. */
  ghost function Took(env: Env, s: State, a: Action, q: Queue): seq<nat>
    requires WellFormed(env, s) && Enabled(env, s, a)
  {
    match q
    case Ready => if a.TakeReady? then [s.ready[0]] else []
    case Requests => if a.Receive? && s.rcv != [] then [s.rcv[0]] else []
    case Answers => if a.TakeRes? then [s.res[0]] else []
  }

  ghost predicate InOrder(env: Env, s: State, a: Action, q: Queue)
    requires WellFormed(env, s) && Enabled(env, s, a)
  {
    Waiting(s, q) + Put(env, s, a, q) == Took(env, s, a, q) + Waiting(Apply(env, s, a), q)
  }

  lemma ReadyInOrder(env: Env, s: State, a: Action)
    requires WellFormed(env, s) && Enabled(env, s, a) && !a.Reopen?
    ensures InOrder(env, s, a, Queue.Ready)
  {
  }

  lemma RequestsInOrder(env: Env, s: State, a: Action)
    requires WellFormed(env, s) && Enabled(env, s, a) && !a.Reopen?
    ensures InOrder(env, s, a, Queue.Requests)
  {
  }

  lemma AnswersInOrder(env: Env, s: State, a: Action)
    requires WellFormed(env, s) && Enabled(env, s, a) && !a.Reopen?
    ensures InOrder(env, s, a, Queue.Answers)
  {
  }

  /** What waits and what is put behind it is what is taken and what waits then. */
  lemma StepInOrder(env: Env, s: State, a: Action, q: Queue)
    requires WellFormed(env, s) && Enabled(env, s, a) && !a.Reopen?
    ensures InOrder(env, s, a, q)
  {
    match q
    case Ready => ReadyInOrder(env, s, a);
    case Requests => RequestsInOrder(env, s, a);
    case Answers => AnswersInOrder(env, s, a);
  }

  /** No step overtakes: each element that waits keeps its place or moves up by one,
      when the first one is taken. */
  lemma NoOvertaking(env: Env, s: State, a: Action, q: Queue, i: nat)
    requires WellFormed(env, s) && Enabled(env, s, a) && !a.Reopen? && i < |Waiting(s, q)|
    ensures var after := Waiting(Apply(env, s, a), q); var n := |Took(env, s, a, q)|;
      (i == 0 && n == 1) || (i - n < |after| && after[i - n] == Waiting(s, q)[i])
  {
    StepInOrder(env, s, a, q);
    var before, behind := Waiting(s, q) + Put(env, s, a, q), Took(env, s, a, q) + Waiting(Apply(env, s, a), q);
    assert before[i] == behind[i];
  }

  ghost predicate Queued(s: State, id: nat) { id in s.ready || id in s.rcv || id in s.res }

  /** What an element says does not change while it waits. */
  lemma WaitsUnchanged(env: Env, s: State, a: Action, id: nat)
    requires WellFormed(env, s) && OneOwner(s) && Enabled(env, s, a) && !a.Reopen?
    requires Queued(s, id) && Queued(Apply(env, s, a), id)
    ensures id in s.elems && id in Apply(env, s, a).elems && Apply(env, s, a).elems[id] == s.elems[id]
  {
    QueueFacts(s, id);
    if a.Post? || a.MarkStep? {
      NotInHand(env, s, a.r, id);
    } else if a.Receive? && s.rcv != [] && a.copied {
      NotReceived(env, s, a, id);
    }
  }

  lemma NotInHand(env: Env, s: State, r: nat, id: nat)
    requires WellFormed(env, s) && OneOwner(s) && Queued(s, id) && r in s.readers
    requires s.readers[r].Taken? || s.readers[r].Matched?
    ensures s.readers[r].id != id
  {
    QueueFacts(s, id);
    assert HoldsAt(s.readers, r, s.readers[r].id);
  }

  lemma NotReceived(env: Env, s: State, a: Action, id: nat)
    requires WellFormed(env, s) && OneOwner(s) && Enabled(env, s, a) && a.Receive? && s.rcv != [] && a.copied
    requires Queued(Apply(env, s, a), id)
    ensures id != s.rcv[0]
  {
    QueuePop(s.rcv);
    QueueFacts(s, s.rcv[0]);
  }

  ghost function PutAll(env: Env, s: State, acts: seq<Action>, q: Queue): seq<nat>
    decreases |acts|
  {
    if acts == [] || !WellFormed(env, s) || !Enabled(env, s, acts[0]) then []
    else Put(env, s, acts[0], q) + PutAll(env, Apply(env, s, acts[0]), acts[1..], q)
  }

  ghost function TookAll(env: Env, s: State, acts: seq<Action>, q: Queue): seq<nat>
    decreases |acts|
  {
    if acts == [] || !WellFormed(env, s) || !Enabled(env, s, acts[0]) then []
    else Took(env, s, acts[0], q) + TookAll(env, Apply(env, s, acts[0]), acts[1..], q)
  }

  ghost predicate NoReopen(acts: seq<Action>) {
    forall i :: 0 <= i < |acts| ==> !acts[i].Reopen?
  }

  lemma Chain(w: seq<nat>, p: seq<nat>, t: seq<nat>, w1: seq<nat>, ps: seq<nat>, ts: seq<nat>, w': seq<nat>)
    requires w + p == t + w1 && w1 + ps == ts + w'
    ensures w + (p + ps) == (t + ts) + w'
  {
    assert w + (p + ps) == (w + p) + ps == t + (w1 + ps) == (t + ts) + w';
  }

  /** Over every run on an open device, with any number of readers and daemons: what
      comes out of a queue is what was in it and then what was put into it, in this order. */
  lemma {:induction false} RunInOrder(env: Env, s: State, acts: seq<Action>, s': State, q: Queue)
    requires Run(env, s, acts, s', false) && NoReopen(acts)
    ensures Waiting(s, q) + PutAll(env, s, acts, q) == TookAll(env, s, acts, q) + Waiting(s', q)
    decreases |acts|
  {
    if acts != [] {
      var s1 := Apply(env, s, acts[0]);
      assert NoReopen(acts[1..]);
      StepInOrder(env, s, acts[0], q);
      RunInOrder(env, s1, acts[1..], s', q);
      Chain(Waiting(s, q), Put(env, s, acts[0], q), Took(env, s, acts[0], q), Waiting(s1, q),
        PutAll(env, s1, acts[1..], q), TookAll(env, s1, acts[1..], q), Waiting(s', q));
    }
  }

  /** So of two requests that wait the earlier one is received first, and the same
      holds of the daemons that are ready and of the answers. */
  lemma EarlierFirst(env: Env, s: State, acts: seq<Action>, s': State, q: Queue, i: nat)
    requires Run(env, s, acts, s', false) && NoReopen(acts)
    requires i < |Waiting(s, q)| && i < |TookAll(env, s, acts, q)|
    ensures TookAll(env, s, acts, q)[i] == Waiting(s, q)[i]
  {
    RunInOrder(env, s, acts, s', q);
    assert (Waiting(s, q) + PutAll(env, s, acts, q))[i] == (TookAll(env, s, acts, q) + Waiting(s', q))[i];
  }
}
