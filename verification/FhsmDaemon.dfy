/**
  The event loop of the move-down daemon and its list of branches in operation,
  a circular doubly linked list. The kernel's table of the daemon's children
  that have not been waited for stands beside it.
  */
module FhsmDaemon {
  import opened Basics

  /** struct in_ope with its list_head; the list's head is such a node as well. */
  class Node {
    var prev: Node?
    var next: Node?
    var brid: int
    var pid: int

    constructor (brid: int, pid: int)
      ensures this.brid == brid && this.pid == pid && prev == null && next == null
    {
      this.brid, this.pid, prev, next := brid, pid, null, null;
    }
  }

  /** The nodes in the order of the links, from the head round to the head. */
  ghost function Round(head: Node, nodes: seq<Node>): seq<Node> {
    [head] + nodes + [head]
  }

  /** A ring of `head` and the nodes, linked both ways. */
  ghost predicate Ring(head: Node, nodes: seq<Node>)
    reads head`prev, head`next, nodes`prev, nodes`next
  {
    && head !in nodes
    && (forall i, j :: 0 <= i < j < |nodes| ==> nodes[i] != nodes[j])
    && Linked(Round(head, nodes))
  }

  ghost predicate Linked(c: seq<Node>)
    reads c`prev, c`next
  {
    forall i :: 0 <= i < |c| - 1 ==> c[i].next == c[i + 1] && c[i + 1].prev == c[i]
  }

  method InitListHead(list: Node)
    modifies list`next, list`prev
    ensures Ring(list, [])
  {
    list.next := list;
    list.prev := list;
  }

  /** __list_add */
  method LinkBetween(n: Node, prev: Node, next: Node)
    requires n != prev && n != next
    modifies n`prev, n`next, prev`next, next`prev
    ensures next.prev == n && n.next == next && n.prev == prev && prev.next == n
    ensures prev != next ==> next.next == old(next.next) && prev.prev == old(prev.prev)
  {
    next.prev := n;
    n.next := next;
    n.prev := prev;
    prev.next := n;
  }

  /** list_add: insertion behind the head. */
  method ListAdd(n: Node, head: Node, ghost nodes: seq<Node>)
    requires Ring(head, nodes) && n != head && n !in nodes
    modifies n`prev, n`next, head`next, head`prev, nodes`prev
    ensures Ring(head, [n] + nodes)
  {
    ghost var c, c' := Round(head, nodes), Round(head, [n] + nodes);
    assert head == c[0] && head.next == c[1];
    LinkBetween(n, head, head.next);
    assert forall i :: 1 < i < |c'| ==> c'[i] == c[i - 1];
  }

  /** list_del: the entry is unlinked and its links are cleared. */
  method ListDel(entry: Node, ghost head: Node, ghost nodes: seq<Node>, ghost k: nat)
    requires Ring(head, nodes) && k < |nodes| && nodes[k] == entry
    modifies head`prev, head`next, nodes`prev, nodes`next
    ensures Ring(head, nodes[..k] + nodes[k + 1..])
    ensures entry.next == null && entry.prev == null
  {
    ghost var c, c' := Round(head, nodes), Round(head, nodes[..k] + nodes[k + 1..]);
    assert entry == c[k + 1];
    var prev, next := entry.prev, entry.next;
    assert prev == c[k] && next == c[k + 2];
    next.prev := prev;
    prev.next := next;
    entry.next := null;
    entry.prev := null;
    forall i | 0 <= i < |c'| - 1 ensures c'[i].next == c'[i + 1] && c'[i + 1].prev == c'[i] {
      assert c'[i] == c[if i <= k then i else i + 1];
      assert c'[i + 1] == c[if i < k then i + 1 else i + 2];
    }
  }

  // ---- the daemon

  const SIGHUP := 1
  const SIGCHLD := 17

  datatype Signal = NotSent | Unreadable | Got(signo: nat, pid: int)
  datatype Message = NoMessage | Broken | Read(loaded: bool) | Exit | Unknown

  /** A branch reported by aufs: over its watermark or not, and what a fork
      would return; a number that is no free process id stands for a failure. */
  datatype Report = Report(brid: int, over: bool, fork: int)
  datatype Event = OnSignal(s: Signal) | OnMessage(m: Message) | OnFhsm(ok: bool, reports: seq<Report>)

  /** The sender of a child's signal is a process. */
  ghost predicate EventOk(ev: Event) {
    ev.OnSignal? && ev.s.Got? && ev.s.signo == SIGCHLD ==> 0 < ev.s.pid
  }

  ghost predicate EventsOk(events: seq<Event>) {
    forall i :: 0 <= i < |events| ==> EventOk(events[i])
  }

  /** What an entry of the list says. */
  datatype Entry = Entry(brid: int, pid: int)

  ghost function Entries(nodes: seq<Node>): (es: seq<Entry>)
    reads nodes`brid, nodes`pid
    ensures |es| == |nodes| && forall i :: 0 <= i < |nodes| ==> es[i] == Entry(nodes[i].brid, nodes[i].pid)
  {
    if nodes == [] then [] else [Entry(nodes[0].brid, nodes[0].pid)] + Entries(nodes[1..])
  }

  lemma EntryOf(nodes: seq<Node>, i: nat)
    requires i < |nodes|
    ensures Entries(nodes)[i] == Entry(nodes[i].brid, nodes[i].pid)
  {
  }

  lemma EntriesWithout(nodes: seq<Node>, k: nat)
    requires k < |nodes|
    ensures Entries(Without(nodes, k)) == Without(Entries(nodes), k)
  {
    var rest := Without(nodes, k);
    var a, b := Entries(rest), Without(Entries(nodes), k);
    assert |a| == |b|;
    forall i | 0 <= i < |rest| ensures a[i] == b[i] {
      var j := if i < k then i else i + 1;
      EntryOf(rest, i);
      EntryOf(nodes, j);
      assert rest[i] == nodes[j] && b[i] == Entries(nodes)[j];
    }
  }

  /** Branch ids are distinct, and the entries stand for the children, one for
      one, but for those whose fork failed (pid 0). */
  ghost predicate Book(es: seq<Entry>, children: map<int, int>) {
    && (forall i, j :: 0 <= i < j < |es| ==> es[i].brid != es[j].brid)
    && (forall i :: 0 <= i < |es| ==> 0 <= es[i].pid)
    && (forall i :: 0 <= i < |es| && es[i].pid != 0 ==> es[i].pid in children && children[es[i].pid] == es[i].brid)
    && (forall p <- children :: 0 < p && Entry(children[p], p) in es)
  }

  /** Every live child has exactly one entry, so no branch has two children. */
  lemma OneChild(es: seq<Entry>, children: map<int, int>, p: int, q: int)
    requires Book(es, children) && p in children && q in children
    ensures p != q ==> children[p] != children[q]
    ensures exists i :: 0 <= i < |es| && es[i].pid == p && forall j :: 0 <= j < |es| && es[j].pid == p ==> j == i
  {
  }

  lemma BookAdd(es: seq<Entry>, children: map<int, int>, brid: int, pid: int)
    requires Book(es, children) && forall i :: 0 <= i < |es| ==> es[i].brid != brid
    ensures Book([Entry(brid, 0)] + es, children)
    ensures 0 < pid && pid !in children ==> Book([Entry(brid, pid)] + es, children[pid := brid])
  {
  }

  function Without<T>(s: seq<T>, k: nat): seq<T>
    requires k < |s|
  {
    s[..k] + s[k + 1..]
  }

  /** The child of entry k has been waited for. */
  lemma BookDel(es: seq<Entry>, children: map<int, int>, k: nat)
    requires Book(es, children) && k < |es|
    ensures Book(Without(es, k), children - {es[k].pid})
  {
  }

  /** A process that is nobody's child is no entry's either. */
  lemma BookUnknown(es: seq<Entry>, children: map<int, int>, pid: int)
    requires Book(es, children) && 0 < pid
    ensures pid in children <==> exists i :: 0 <= i < |es| && es[i].pid == pid
  {
  }

  lemma BookEmpty(es: seq<Entry>, children: map<int, int>)
    requires Book(es, children)
    ensures es == [] ==> children == map[]
  {
    if exists p :: p in children {
      var p :| p in children;
      assert Entry(children[p], p) in es;
    } else {
      assert children == map[];
    }
  }

  // ---- the daemon, step by step

  /** The entries of the list, and the children: process id to branch id. */
  datatype Desk = Desk(es: seq<Entry>, kids: map<int, int>)

  predicate InOperation(es: seq<Entry>, brid: int) {
    exists i :: 0 <= i < |es| && es[i].brid == brid
  }

  /** The first entry with a process id, or |es|. */
  function IndexOf(es: seq<Entry>, pid: int): (k: nat)
    ensures k <= |es| && (k < |es| ==> es[k].pid == pid)
    ensures forall j :: 0 <= j < k ==> es[j].pid != pid
  {
    if es == [] || es[0].pid == pid then 0 else
      var k := IndexOf(es[1..], pid);
      assert forall j :: 0 < j < k + 1 ==> es[j] == es[1..][j - 1];
      k + 1
  }

  /** au_mvdown_run: a branch over its watermark and not in operation gets an
      entry, and a child if the fork works. */
  function Ran(d: Desk, r: Report): (Desk, bool) {
    if !r.over || InOperation(d.es, r.brid) then (d, false)
    else if 0 < r.fork && r.fork !in d.kids
    then (Desk([Entry(r.brid, r.fork)] + d.es, d.kids[r.fork := r.brid]), false)
    else (Desk([Entry(r.brid, 0)] + d.es, d.kids), true)
  }

  function RanAll(d: Desk, reports: seq<Report>): (Desk, bool)
    decreases |reports|
  {
    if reports == [] then (d, false)
    else
      var (d1, err) := Ran(d, reports[0]);
      if err then (d1, true) else RanAll(d1, reports[1..])
  }

  function Reaped(d: Desk, pid: int): Desk {
    var k := IndexOf(d.es, pid);
    Desk(if k < |d.es| then Without(d.es, k) else d.es, d.kids - {pid})
  }

  /** handle_sig. A child's signal is answered with zero like a SIGHUP, even
      when waitpid fails: the caller never learns the child's exit status. */
  function Signalled(d: Desk, s: Signal): (Desk, int) {
    match s
    case NotSent => (d, 0)
    case Unreadable => (d, -1)
    case Got(n, pid) => if n == SIGCHLD then (Reaped(d, pid), 0) else (d, if n == SIGHUP then 0 else n)
  }

  function Handled(d: Desk, ev: Event, done: bool): (Desk, bool) {
    match ev
    case OnSignal(s) => (Signalled(d, s).0, done || Signalled(d, s).1 != 0)
    case OnMessage(m) => (d, done || m.Exit?)
    case OnFhsm(ok, reports) =>
      if done then (d, true) else if ok then RanAll(d, reports) else (d, true)
  }

  function HandledAll(d: Desk, events: seq<Event>, done: bool): (Desk, bool)
    decreases |events|
  {
    if events == [] then (d, done)
    else
      var (d1, done1) := Handled(d, events[0], done);
      HandledAll(d1, events[1..], done1)
  }

  /** The loop over the rounds that arrive; the result is false when they stop first. */
  function Looped(d: Desk, rounds: seq<seq<Event>>, done: bool): (Desk, bool)
    decreases |rounds|
  {
    if done && d.es == [] then (d, true)
    else if rounds == [] then (d, false)
    else
      var (d1, done1) := HandledAll(d, rounds[0], done);
      Looped(d1, rounds[1..], done1)
  }

  ghost predicate Failed(d: Desk) { exists i :: 0 <= i < |d.es| && d.es[i].pid == 0 }

  lemma RanKeeps(d: Desk, r: Report)
    requires Book(d.es, d.kids)
    ensures Book(Ran(d, r).0.es, Ran(d, r).0.kids) && (Failed(d) || Ran(d, r).1 ==> Failed(Ran(d, r).0))
  {
    var d' := Ran(d, r).0;
    if r.over && !InOperation(d.es, r.brid) {
      BookAdd(d.es, d.kids, r.brid, r.fork);
      assert d'.es[0].pid == 0 ==> Failed(d');
      if i :| 0 <= i < |d.es| && d.es[i].pid == 0 {
        assert d'.es[i + 1] == d.es[i];
      }
    }
  }

  lemma {:induction false} RanAllKeeps(d: Desk, reports: seq<Report>)
    requires Book(d.es, d.kids)
    ensures Book(RanAll(d, reports).0.es, RanAll(d, reports).0.kids)
    ensures Failed(d) || RanAll(d, reports).1 ==> Failed(RanAll(d, reports).0)
    decreases |reports|
  {
    if reports != [] {
      RanKeeps(d, reports[0]);
      var (d1, err) := Ran(d, reports[0]);
      if !err { RanAllKeeps(d1, reports[1..]); }
    }
  }

  lemma ReapedKeeps(d: Desk, pid: int)
    requires Book(d.es, d.kids) && 0 < pid
    ensures Book(Reaped(d, pid).es, Reaped(d, pid).kids) && (Failed(d) ==> Failed(Reaped(d, pid)))
  {
    var k := IndexOf(d.es, pid);
    if k < |d.es| {
      BookDel(d.es, d.kids, k);
      FailedStays(d.es, k);
    } else {
      BookUnknown(d.es, d.kids, pid);
      assert d.kids - {pid} == d.kids;
    }
  }

  lemma FailedStays(es: seq<Entry>, k: nat)
    requires k < |es| && es[k].pid != 0
    ensures Failed(Desk(es, map[])) ==> Failed(Desk(Without(es, k), map[]))
  {
    if i :| 0 <= i < |es| && es[i].pid == 0 {
      assert Without(es, k)[if i < k then i else i - 1] == es[i];
    }
  }

  /** Every event keeps entries and children one for one, and never removes the
      entry of a failed fork. */
  lemma HandledKeeps(d: Desk, ev: Event, done: bool)
    requires Book(d.es, d.kids) && EventOk(ev)
    ensures var d' := Handled(d, ev, done).0; Book(d'.es, d'.kids) && (Failed(d) ==> Failed(d'))
  {
    match ev
    case OnSignal(s) => if s.Got? && s.signo == SIGCHLD { ReapedKeeps(d, s.pid); }
    case OnMessage(_) =>
    case OnFhsm(_, reports) => RanAllKeeps(d, reports);
  }

  lemma {:induction false} HandledAllKeeps(d: Desk, events: seq<Event>, done: bool)
    requires Book(d.es, d.kids) && EventsOk(events)
    ensures var d' := HandledAll(d, events, done).0; Book(d'.es, d'.kids) && (Failed(d) ==> Failed(d'))
    decreases |events|
  {
    if events != [] {
      assert EventOk(events[0]);
      HandledKeeps(d, events[0], done);
      var (d1, done1) := Handled(d, events[0], done);
      HandledAllKeeps(d1, events[1..], done1);
    }
  }

  /** Over every run: no branch has two children, the loop returns only with no
      child left, and never again once a fork has failed. */
  lemma {:induction false} LoopedKeeps(d: Desk, rounds: seq<seq<Event>>, done: bool)
    requires Book(d.es, d.kids) && RoundsOk(rounds)
    ensures var (d', returned) := Looped(d, rounds, done);
      && Book(d'.es, d'.kids)
      && (returned ==> d' == Desk([], map[]))
      && (Failed(d) ==> !returned)
    decreases |rounds|
  {
    if done && d.es == [] {
      BookEmpty(d.es, d.kids);
    } else if rounds != [] {
      HandledAllKeeps(d, rounds[0], done);
      var (d1, done1) := HandledAll(d, rounds[0], done);
      LoopedKeeps(d1, rounds[1..], done1);
    }
  }

  ghost predicate RoundsOk(rounds: seq<seq<Event>>) {
    forall i :: 0 <= i < |rounds| ==> EventsOk(rounds[i])
  }

  // ---- what starts a child, and what stops the daemon

  /** A report over its watermark is in operation afterwards, and nothing else is
      new; the children gain the one that was forked for it. */
  lemma RanStarts(d: Desk, r: Report)
    ensures var (d', err) := Ran(d, r); var starts := r.over && !InOperation(d.es, r.brid);
      && (forall b :: InOperation(d'.es, b) <==> InOperation(d.es, b) || (r.over && b == r.brid))
      && (err <==> starts && (r.fork <= 0 || r.fork in d.kids))
      && d'.kids == (if starts && !err then d.kids[r.fork := r.brid] else d.kids)
  {
    var d' := Ran(d, r).0;
    if r.over && !InOperation(d.es, r.brid) {
      forall b ensures InOperation(d'.es, b) <==> InOperation(d.es, b) || b == r.brid {
        assert d'.es[0].brid == r.brid;
        if i :| 0 <= i < |d.es| && d.es[i].brid == b { assert d'.es[i + 1] == d.es[i]; }
        if i :| 0 <= i < |d'.es| && d'.es[i].brid == b { assert i == 0 || d'.es[i] == d.es[i - 1]; }
      }
    }
  }

  ghost predicate Reported(reports: seq<Report>, brid: int) {
    exists i :: 0 <= i < |reports| && reports[i].over && reports[i].brid == brid
  }

  /** After a report that was handled to its end just the branches over their
      watermarks, and those that were in operation already, are in operation. */
  lemma {:induction false} RanAllStarts(d: Desk, reports: seq<Report>, b: int)
    ensures var (d', err) := RanAll(d, reports);
      && (InOperation(d'.es, b) ==> InOperation(d.es, b) || Reported(reports, b))
      && (InOperation(d.es, b) ==> InOperation(d'.es, b))
      && (!err && Reported(reports, b) ==> InOperation(d'.es, b))
    decreases |reports|
  {
    if reports != [] {
      RanStarts(d, reports[0]);
      var (d1, err) := Ran(d, reports[0]);
      ReportedSplit(reports, b);
      if !err { RanAllStarts(d1, reports[1..], b); }
    }
  }

  lemma ReportedSplit(reports: seq<Report>, b: int)
    requires reports != []
    ensures Reported(reports, b) <==> (reports[0].over && reports[0].brid == b) || Reported(reports[1..], b)
  {
    if i :| 0 <= i < |reports| - 1 && reports[1..][i].over && reports[1..][i].brid == b {
      assert reports[i + 1] == reports[1..][i];
    }
    if i :| 0 <= i < |reports| && reports[i].over && reports[i].brid == b {
      assert i == 0 || reports[1..][i - 1] == reports[i];
    }
  }

  /** Somebody asks the daemon to stop: an exit message, a signal that is neither
      SIGHUP nor SIGCHLD, or a descriptor that cannot be read. */
  predicate Asks(ev: Event) {
    match ev
    case OnSignal(s) => s.Unreadable? || (s.Got? && s.signo !in {0, SIGHUP, SIGCHLD})
    case OnMessage(m) => m.Exit?
    case OnFhsm(ok, _) => !ok
  }

  lemma {:induction false} RanAllFails(d: Desk, reports: seq<Report>)
    requires Book(d.es, d.kids) && !Failed(d)
    ensures RanAll(d, reports).1 <==> Failed(RanAll(d, reports).0)
    decreases |reports|
  {
    RanAllKeeps(d, reports);
    if reports != [] {
      RanKeeps(d, reports[0]);
      if !Ran(d, reports[0]).1 { RanAllFails(Ran(d, reports[0]).0, reports[1..]); }
    }
  }

  /** The daemon is stopped by just these and by a failed fork; SIGHUP and SIGCHLD
      stop nothing, and an event that asks for the stop changes no entry. */
  lemma StopsIff(d: Desk, ev: Event, done: bool)
    requires Book(d.es, d.kids) && EventOk(ev)
    ensures Asks(ev) ==> Handled(d, ev, done) == (d, true)
    ensures ev.OnSignal? && !Asks(ev) ==> Handled(d, ev, done).1 == done
    ensures ev.OnSignal? && ev.s.Got? && ev.s.signo == SIGHUP ==> Handled(d, ev, done).0 == d
    ensures !Failed(d) ==> (Handled(d, ev, done).1 <==> done || Asks(ev) || Failed(Handled(d, ev, done).0))
  {
    if !Failed(d) {
      match ev
      case OnSignal(s) => if s.Got? && s.signo == SIGCHLD { NoneFails(d, s.pid); }
      case OnMessage(_) =>
      case OnFhsm(_, reports) => RanAllFails(d, reports);
    }
  }

  lemma NoneFails(d: Desk, pid: int)
    requires !Failed(d)
    ensures !Failed(Reaped(d, pid))
  {
    var k := IndexOf(d.es, pid);
    assert forall i :: 0 <= i < |Reaped(d, pid).es| ==> Reaped(d, pid).es[i] == d.es[if i < k then i else i + 1];
  }

  ghost predicate NobodyAsks(events: seq<Event>) {
    forall i :: 0 <= i < |events| ==> !Asks(events[i])
  }

  lemma {:induction false} StoppedByForkOnly(d: Desk, events: seq<Event>, done: bool)
    requires Book(d.es, d.kids) && EventsOk(events) && NobodyAsks(events) && (done ==> Failed(d))
    ensures var (d', done') := HandledAll(d, events, done); Book(d'.es, d'.kids) && (done' ==> Failed(d'))
    decreases |events|
  {
    if events != [] {
      assert EventOk(events[0]) && !Asks(events[0]);
      StopsIff(d, events[0], done);
      HandledKeeps(d, events[0], done);
      var (d1, done1) := Handled(d, events[0], done);
      StoppedByForkOnly(d1, events[1..], done1);
    }
  }

  /** So the loop returns only if somebody asked for it: a failed fork stops the
      daemon as well, but then the loop never returns. */
  lemma {:induction false} ReturnsWhenAsked(d: Desk, rounds: seq<seq<Event>>, done: bool)
    requires Book(d.es, d.kids) && RoundsOk(rounds) && (done ==> Failed(d))
    requires forall i :: 0 <= i < |rounds| ==> NobodyAsks(rounds[i])
    ensures !Looped(d, rounds, done).1
    decreases |rounds|
  {
    if rounds != [] {
      StoppedByForkOnly(d, rounds[0], done);
      var (d1, done1) := HandledAll(d, rounds[0], done);
      ReturnsWhenAsked(d1, rounds[1..], done1);
    }
  }

  /** And an idle daemon returns as soon as somebody asks. */
  lemma IdleReturns(ev: Event)
    requires Asks(ev)
    ensures Looped(Desk([], map[]), [[ev]], false) == (Desk([], map[]), true)
  {
    var d := Desk([], map[]);
    assert Handled(d, ev, false) == (d, true);
    assert [ev][1..] == [] && HandledAll(d, [ev], false) == HandledAll(d, [], true);
    assert [[ev]][1..] == [];
  }

  // ---- signals that are merged

  /** SIGCHLD does not queue: while one waits to be read, the next is dropped.
      `pending` is the child named by the one that waits, `lost` are the children
      that ended meanwhile and that no signal will ever name. */
  datatype Sigs = Sigs(pending: Option<int>, lost: set<int>)

  /** The daemon between two events. */
  datatype Moment = Moment(d: Desk, done: bool, sigs: Sigs)

  datatype Item = Ends(pid: int) | Arrives(ev: Event)

  predicate IsChild(ev: Event) { ev.OnSignal? && ev.s.Got? && ev.s.signo == SIGCHLD }

  /** A child ends once, and its signal is read only while it waits. */
  ghost predicate ItemOk(m: Moment, it: Item) {
    match it
    case Ends(p) => p in m.d.kids && m.sigs.pending != Some(p) && p !in m.sigs.lost
    case Arrives(ev) => EventOk(ev) && (IsChild(ev) ==> m.sigs.pending == Some(ev.s.pid))
  }

  function Step(m: Moment, it: Item): Moment {
    match it
    case Ends(p) =>
      m.(sigs := if m.sigs.pending.None? then m.sigs.(pending := Some(p)) else m.sigs.(lost := m.sigs.lost + {p}))
    case Arrives(ev) =>
      var (d, done) := Handled(m.d, ev, m.done);
      Moment(d, done, if IsChild(ev) then m.sigs.(pending := None) else m.sigs)
  }

  function Steps(m: Moment, items: seq<Item>): Moment
    decreases |items|
  {
    if items == [] then m else Steps(Step(m, items[0]), items[1..])
  }

  ghost predicate Can(m: Moment, items: seq<Item>)
    decreases |items|
  {
    items == [] || (ItemOk(m, items[0]) && Can(Step(m, items[0]), items[1..]))
  }

  ghost predicate CanAll(m: Moment, rounds: seq<seq<Item>>)
    decreases |rounds|
  {
    rounds == [] || (Can(m, rounds[0]) && CanAll(Steps(m, rounds[0]), rounds[1..]))
  }

  /** What the loop sees of it. */
  function Seen(items: seq<Item>): seq<Event> {
    if items == [] then [] else (if items[0].Arrives? then [items[0].ev] else []) + Seen(items[1..])
  }

  function SeenAll(rounds: seq<seq<Item>>): seq<seq<Event>> {
    if rounds == [] then [] else [Seen(rounds[0])] + SeenAll(rounds[1..])
  }

  ghost predicate MomentOk(m: Moment) {
    && Book(m.d.es, m.d.kids) && m.sigs.lost <= m.d.kids.Keys
    && (m.sigs.pending.Some? ==> m.sigs.pending.value in m.d.kids && m.sigs.pending.value !in m.sigs.lost)
  }

  /** Some entry stays whatever happens: that of a failed fork, or of a lost child. */
  ghost predicate Stuck(m: Moment) { Failed(m.d) || m.sigs.lost != {} }

  lemma {:induction false} RanAllGrows(d: Desk, reports: seq<Report>)
    ensures d.kids.Keys <= RanAll(d, reports).0.kids.Keys
    decreases |reports|
  {
    if reports != [] { RanAllGrows(Ran(d, reports[0]).0, reports[1..]); }
  }

  lemma StepKeeps(m: Moment, it: Item)
    requires MomentOk(m) && ItemOk(m, it)
    ensures MomentOk(Step(m, it)) && (Stuck(m) ==> Stuck(Step(m, it)))
  {
    if it.Arrives? {
      HandledKeeps(m.d, it.ev, m.done);
      if it.ev.OnFhsm? { RanAllGrows(m.d, it.ev.reports); }
    }
  }

  lemma {:induction false} StepsKeep(m: Moment, items: seq<Item>)
    requires MomentOk(m) && Can(m, items)
    ensures MomentOk(Steps(m, items)) && (Stuck(m) ==> Stuck(Steps(m, items)))
    ensures HandledAll(m.d, Seen(items), m.done) == (Steps(m, items).d, Steps(m, items).done)
    decreases |items|
  {
    if items != [] {
      StepKeeps(m, items[0]);
      StepsKeep(Step(m, items[0]), items[1..]);
      if items[0].Arrives? {
        assert Seen(items) == [items[0].ev] + Seen(items[1..]);
        assert Seen(items)[1..] == Seen(items[1..]);
      } else {
        assert Seen(items) == Seen(items[1..]);
      }
    }
  }

  lemma {:induction false} StuckStays(m: Moment, rounds: seq<seq<Item>>)
    requires MomentOk(m) && CanAll(m, rounds) && Stuck(m)
    ensures !Looped(m.d, SeenAll(rounds), m.done).1
    decreases |rounds|
  {
    BookEmpty(m.d.es, m.d.kids);
    if rounds != [] {
      StepsKeep(m, rounds[0]);
      StuckStays(Steps(m, rounds[0]), rounds[1..]);
      assert SeenAll(rounds)[1..] == SeenAll(rounds[1..]);
    }
  }

  lemma First(m: Moment, it: Item, items: seq<Item>)
    ensures Steps(m, [it] + items) == Steps(Step(m, it), items)
    ensures Can(m, [it] + items) <==> ItemOk(m, it) && Can(Step(m, it), items)
  {
    assert ([it] + items)[1..] == items;
  }

  /** The next step towards the return: the stop, or the end of a child and its signal. */
  lemma NextItems(m: Moment) returns (items: seq<Item>)
    requires MomentOk(m) && !Stuck(m) && (m.done ==> m.d.es != [])
    ensures Can(m, items) && !Stuck(Steps(m, items)) && Steps(m, items).done
    ensures if m.done then |Steps(m, items).d.es| < |m.d.es| else Steps(m, items).d == m.d
  {
    if !m.done {
      First(m, Arrives(OnMessage(Exit)), []);
      items := [Arrives(OnMessage(Exit))] + [];
    } else {
      var p := if m.sigs.pending.Some? then m.sigs.pending.value else m.d.es[0].pid;
      var sig := Arrives(OnSignal(Got(SIGCHLD, p)));
      OneReaped(m.d, p);
      var m1 := m.(sigs := Sigs(Some(p), {}));
      First(m1, sig, []);
      items := [sig] + [];
      if m.sigs.pending.None? {
        First(m, Ends(p), items);
        items := [Ends(p)] + items;
      }
    }
  }

  lemma OneReaped(d: Desk, pid: int)
    requires Book(d.es, d.kids) && !Failed(d) && pid in d.kids
    ensures 0 < pid && |Reaped(d, pid).es| < |d.es| && !Failed(Reaped(d, pid))
  {
    BookUnknown(d.es, d.kids, pid);
    var k := IndexOf(d.es, pid);
    assert k < |d.es|;
    assert forall i :: 0 <= i < |d.es| - 1 ==> Without(d.es, k)[i] == d.es[if i < k then i else i + 1];
  }

  lemma {:induction false} CanReturn(m: Moment) returns (rounds: seq<seq<Item>>)
    requires MomentOk(m) && !Stuck(m)
    ensures CanAll(m, rounds) && Looped(m.d, SeenAll(rounds), m.done).1
    decreases |m.d.es|, !m.done
  {
    if m.done && m.d.es == [] {
      return [];
    }
    var items := NextItems(m);
    StepsKeep(m, items);
    var rest := CanReturn(Steps(m, items));
    rounds := [items] + rest;
    assert rounds[1..] == rest && SeenAll(rounds)[1..] == SeenAll(rest);
  }

  ghost predicate Returns(m: Moment, rounds: seq<seq<Item>>) {
    CanAll(m, rounds) && Looped(m.d, SeenAll(rounds), m.done).1
  }

  /** From any moment the loop can still return if and only if no fork has failed
      and no child's signal was merged with one that waited. */
  lemma ReturnsIff(m: Moment)
    requires MomentOk(m)
    ensures (exists rounds: seq<seq<Item>> :: Returns(m, rounds)) <==> !Failed(m.d) && m.sigs.lost == {}
  {
    if Stuck(m) {
      forall rounds: seq<seq<Item>> | CanAll(m, rounds) ensures !Returns(m, rounds) {
        StuckStays(m, rounds);
      }
    } else {
      var rounds := CanReturn(m);
      assert Returns(m, rounds);
    }
  }

  lemma TwoStarted(b: int, c: int, p: int, q: int)
    requires b != c && p != q && 0 < p && 0 < q
    ensures RanAll(Desk([], map[]), [Report(b, true, p), Report(c, true, q)])
         == (Desk([Entry(c, q), Entry(b, p)], map[p := b, q := c]), false)
  {
    var d0, d1 := Desk([], map[]), Desk([Entry(b, p)], map[p := b]);
    var d2 := Desk([Entry(c, q), Entry(b, p)], map[p := b, q := c]);
    var r1, r2 := Report(b, true, p), Report(c, true, q);
    assert [Entry(b, p)] + d0.es == d1.es && [Entry(c, q)] + d1.es == d2.es;
    assert d0.kids[p := b] == d1.kids && d1.kids[q := c] == d2.kids;
    assert Ran(d0, r1) == (d1, false) && Ran(d1, r2) == (d2, false);
    assert [r1, r2][1..] == [r2] && RanAll(d1, [r2]) == RanAll(d2, []);
  }

  /** Two healthy children are enough: both are started and end before a signal is
      read, no fork failed, and the loop never returns. */
  lemma TwoChildren(b: int, c: int, p: int, q: int)
    requires b != c && p != q && 0 < p && 0 < q
    ensures var m := Moment(Desk([], map[]), false, Sigs(None, {}));
      var items := [Arrives(OnFhsm(true, [Report(b, true, p), Report(c, true, q)])), Ends(p), Ends(q)];
      && MomentOk(m) && Can(m, items) && !Failed(Steps(m, items).d)
      && Steps(m, items).sigs == Sigs(Some(p), {q})
      && forall rounds: seq<seq<Item>> :: !Returns(Steps(m, items), rounds)
  {
    var m := Moment(Desk([], map[]), false, Sigs(None, {}));
    var r1, r2 := Report(b, true, p), Report(c, true, q);
    var start := Arrives(OnFhsm(true, [r1, r2]));
    var d2 := Desk([Entry(c, q), Entry(b, p)], map[p := b, q := c]);
    assert RanAll(m.d, [r1, r2]) == (d2, false) by { TwoStarted(b, c, p, q); }
    var m1 := Moment(d2, false, Sigs(None, {}));
    assert Step(m, start) == m1;
    var m2, m3 := Step(m1, Ends(p)), Moment(d2, false, Sigs(Some(p), {q}));
    First(m2, Ends(q), []);
    First(m1, Ends(p), [Ends(q)] + []);
    First(m, start, [Ends(p)] + ([Ends(q)] + []));
    var items := [start, Ends(p), Ends(q)];
    assert items == [start] + ([Ends(p)] + ([Ends(q)] + []));
    assert Step(m2, Ends(q)) == m3;
    StepsKeep(m, items);
    ReturnsIff(m3);
  }

  /** After a stop was asked for, no child is started any more. */
  lemma {:induction false} StoppedStartsNone(d: Desk, rounds: seq<seq<Event>>)
    ensures Looped(d, rounds, true).0.kids.Keys <= d.kids.Keys
    decreases |rounds|
  {
    if rounds != [] && d.es != [] {
      StoppedRound(d, rounds[0]);
      StoppedStartsNone(HandledAll(d, rounds[0], true).0, rounds[1..]);
    }
  }

  lemma {:induction false} StoppedRound(d: Desk, events: seq<Event>)
    ensures HandledAll(d, events, true).1 && HandledAll(d, events, true).0.kids.Keys <= d.kids.Keys
    decreases |events|
  {
    if events != [] { StoppedRound(Handled(d, events[0], true).0, events[1..]); }
  }

  class Daemon {
    const head: Node
    ghost var nodes: seq<Node>
    ghost var repr: set<Node>
    var children: map<int, int>  // process id to branch id, until waited for

    constructor ()
      ensures Valid() && fresh(repr) && nodes == [] && children == map[]
    {
      var h := new Node(-1, -1);
      head, nodes, children, repr := h, [], map[], {h};
      new;
      InitListHead(head);
    }

    ghost predicate Listed()
      reads this`nodes, this`repr, repr`prev, repr`next
    {
      head in repr && (forall n <- nodes :: n in repr) && Ring(head, nodes)
    }

    ghost predicate Valid()
      reads this, repr
    {
      Listed() && Book(Entries(nodes), children)
    }

    ghost function Abs(): Desk
      reads this`nodes, this`children, nodes
    {
      Desk(Entries(nodes), children)
    }

    lemma ValidBy(es: seq<Entry>, kids: map<int, int>)
      requires Listed() && Entries(nodes) == es && children == kids && Book(es, kids)
      ensures Valid()
    {
    }

    /** The walk over the list; the result is null when it comes round. */
    method Find(x: int, byPid: bool) returns (e: Node?, ghost k: nat)
      requires Ring(head, nodes)
      ensures k <= |nodes| && (e == null <==> k == |nodes|)
      ensures k < |nodes| ==> e == nodes[k] && (if byPid then e.pid else e.brid) == x
      ensures forall j :: 0 <= j < k ==> (if byPid then nodes[j].pid else nodes[j].brid) != x
    {
      ghost var c := Round(head, nodes);
      assert c[0] == head;
      e, k := head.next, 0;
      while e != head
        invariant k <= |nodes| && e == c[k + 1] && (e == head <==> k == |nodes|)
        invariant forall j :: 0 <= j < k ==> (if byPid then nodes[j].pid else nodes[j].brid) != x
        decreases |nodes| - k
      {
        assert e == nodes[k];
        if (if byPid then e.pid else e.brid) == x {
          return;
        }
        e, k := e.next, k + 1;
        assert k < |nodes| ==> c[k + 1] == nodes[k];
      }
      e := null;
    }

    method AddEntry(brid: int) returns (n: Node)
      requires Listed()
      modifies this`nodes, this`repr, head`prev, head`next, nodes`prev
      ensures fresh(n) && n.pid == 0 && n.brid == brid && nodes == [n] + old(nodes)
      ensures Listed() && repr == old(repr) + {n}
    {
      n := new Node(brid, 0);
      ListAdd(n, head, nodes);
      nodes, repr := [n] + nodes, repr + {n};
    }

    /** A new entry, and the child that a successful fork makes. */
    method Fork(r: Report) returns (err: bool)
      requires Listed()
      modifies this`nodes, this`repr, this`children, repr
      ensures Listed() && fresh(repr - old(repr)) && (err <==> !(0 < r.fork && r.fork !in old(children)))
      ensures Entries(nodes) == [Entry(r.brid, if err then 0 else r.fork)] + old(Entries(nodes))
      ensures children == if err then old(children) else old(children)[r.fork := r.brid]
    {
      ghost var was := nodes;
      ghost var es := Entries(was);
      var n := AddEntry(r.brid);
      assert nodes[1..] == was && Entries(was) == es;
      assert Entries(nodes) == [Entry(r.brid, 0)] + es;
      if 0 < r.fork && r.fork !in children {
        children := children[r.fork := r.brid];
        SetPid(n, r.fork);
        err := false;
      } else {
        err := true;
      }
    }

    method SetPid(n: Node, pid: int)
      requires Listed() && nodes != [] && nodes[0] == n
      modifies n`pid
      ensures Listed() && Entries(nodes) == [Entry(n.brid, pid)] + old(Entries(nodes))[1..]
    {
      ghost var rest := Entries(nodes[1..]);
      n.pid := pid;
      assert Entries(nodes[1..]) == rest;
    }

    method Enter(r: Report) returns (err: bool)
      requires Valid() && r.over && !InOperation(Entries(nodes), r.brid)
      modifies this`nodes, this`repr, this`children, repr
      ensures Valid() && fresh(repr - old(repr)) && (Abs(), err) == Ran(old(Abs()), r)
    {
      ghost var d := Abs();
      RanKeeps(d, r);
      err := Fork(r);
      ValidBy(Ran(d, r).0.es, Ran(d, r).0.kids);
    }

    /** au_mvdown_run in the daemon. */
    method MvdownRun(r: Report) returns (err: bool)
      requires Valid()
      modifies this`nodes, this`repr, this`children, repr
      ensures Valid() && fresh(repr - old(repr))
      ensures (Abs(), err) == Ran(old(Abs()), r)
    {
      err := false;
      var starts := Starts(r);
      if starts {
        err := Enter(r);
      }
    }

    /** The usage test and the search of the list. */
    method Starts(r: Report) returns (starts: bool)
      requires Listed()
      ensures starts <==> r.over && !InOperation(Entries(nodes), r.brid)
    {
      if !r.over {
        return false;
      }
      var e, k := Find(r.brid, false);
      Found(r.brid, k);
      starts := e == null;
    }

    lemma Found(brid: int, k: nat)
      requires k <= |nodes| && (k < |nodes| ==> nodes[k].brid == brid)
      requires forall j :: 0 <= j < k ==> nodes[j].brid != brid
      ensures InOperation(Entries(nodes), brid) <==> k < |nodes|
    {
      assert k < |nodes| ==> Entries(nodes)[k].brid == brid;
    }

    method Unlink(e: Node, ghost k: nat)
      requires Listed() && k < |nodes| && nodes[k] == e
      modifies this`nodes, repr`prev, repr`next
      ensures Listed() && Entries(nodes) == Without(old(Entries(nodes)), k)
    {
      ghost var was, es := nodes, Entries(nodes);
      ListDel(e, head, nodes, k);
      nodes := Without(nodes, k);
      assert forall n <- nodes :: n in was;
      assert Entries(was) == es;
      EntriesWithout(was, k);
    }

    /** Entry k is dropped and its child waited for. */
    method Drop(e: Node, ghost k: nat)
      requires Listed() && k < |nodes| && nodes[k] == e
      modifies this`nodes, this`children, repr`prev, repr`next
      ensures Listed() && Entries(nodes) == Without(old(Entries(nodes)), k)
      ensures children == old(children) - {old(Entries(nodes))[k].pid}
    {
      ghost var es := Entries(nodes);
      assert es[k].pid == e.pid;
      Unlink(e, k);
      children := children - {e.pid};
      assert Entries(nodes) == Without(es, k);
    }

    lemma Known(pid: int, k: nat)
      requires k <= |nodes| && (k < |nodes| ==> nodes[k].pid == pid)
      requires forall j :: 0 <= j < k ==> nodes[j].pid != pid
      ensures k == IndexOf(Entries(nodes), pid)
    {
      assert k < |nodes| ==> Entries(nodes)[k].pid == pid;
    }

    /** The end of a child, reported by a signal. */
    method Reap(pid: int)
      requires Valid() && 0 < pid
      modifies this`nodes, this`children, repr`prev, repr`next
      ensures Valid() && Abs() == Reaped(old(Abs()), pid)
    {
      ghost var d := Abs();
      ReapedKeeps(d, pid);
      if IndexOf(d.es, pid) == |d.es| { BookUnknown(d.es, d.kids, pid); }
      ReapEntry(pid);
      ValidBy(Reaped(d, pid).es, Reaped(d, pid).kids);
    }

    method ReapEntry(pid: int)
      requires Listed() && (IndexOf(Entries(nodes), pid) == |nodes| ==> pid !in children)
      modifies this`nodes, this`children, repr`prev, repr`next
      ensures Listed() && Abs() == Reaped(old(Abs()), pid)
    {
      var e, k := Find(pid, true);
      Known(pid, k);
      ghost var d := Abs();
      if e != null {
        Drop(e, k);
        assert Entries(nodes) == Reaped(d, pid).es;
      } else {
        assert children == children - {pid};  // an unknown child; waitpid fails
      }
    }

    /** handle_sig */
    method HandleSig(s: Signal) returns (r: int)
      requires Valid() && (s.Got? && s.signo == SIGCHLD ==> 0 < s.pid)
      modifies this`nodes, this`children, repr`prev, repr`next
      ensures Valid() && (Abs(), r) == Signalled(old(Abs()), s)
    {
      if s.NotSent? { return 0; }
      if s.Unreadable? { return -1; }
      r := s.signo;
      if s.signo == SIGCHLD {
        Reap(s.pid);
        r := 0;  // whatever waitpid said
      } else if s.signo == SIGHUP {
        r := 0;
      }
    }

    /** handle_msg */
    method HandleMsg(m: Message) returns (err: bool, msgExit: bool)
      ensures msgExit <==> m.Exit?
      ensures err <==> m.Broken? || m.Unknown? || m == Read(false)
    {
      err, msgExit := false, false;
      match m
      case NoMessage =>
      case Broken => err := true;
      case Read(loaded) => err := !loaded;
      case Exit => msgExit := true;
      case Unknown => err := true;
    }

    /** handle_fhsm: every reported branch in turn, until a fork fails. */
    method HandleFhsm(ok: bool, reports: seq<Report>) returns (err: bool)
      requires Valid()
      modifies this`nodes, this`repr, this`children, repr
      ensures Valid() && fresh(repr - old(repr))
      ensures (Abs(), err) == if ok then RanAll(old(Abs()), reports) else (old(Abs()), true)
    {
      err := !ok;
      var i := 0;
      ghost var d := Abs();
      assert reports[0..] == reports;
      while !err && i < |reports|
        invariant i <= |reports| && Valid() && fresh(repr - old(repr))
        invariant ok ==> RanAll(d, reports) == if err then (Abs(), true) else RanAll(Abs(), reports[i..])
        invariant !ok ==> err && Abs() == d
        decreases |reports| - i
      {
        assert reports[i..][1..] == reports[i + 1..];
        err := MvdownRun(reports[i]);
        i := i + 1;
      }
    }

    /** One event of the loop. */
    method Handle(ev: Event, done0: bool) returns (done: bool)
      requires Valid() && EventOk(ev)
      modifies this`nodes, this`repr, this`children, repr
      ensures Valid() && fresh(repr - old(repr))
      ensures (Abs(), done) == Handled(old(Abs()), ev, done0)
    {
      done := done0;
      match ev
      case OnSignal(s) =>
        done := OnSignalFd(s, done0);
      case OnMessage(m) =>
        var err, msgExit := HandleMsg(m);
        if !err && msgExit {
          done := true;
        }
      case OnFhsm(ok, reports) =>
        if !done {
          var err := HandleFhsm(ok, reports);
          if err {
            done := true;
          }
        }
    }

    method OnSignalFd(s: Signal, done0: bool) returns (done: bool)
      requires Valid() && EventOk(OnSignal(s))
      modifies this`nodes, this`children, repr`prev, repr`next
      ensures Valid() && (Abs(), done) == Handled(old(Abs()), OnSignal(s), done0)
    {
      done := done0;
      var sig := HandleSig(s);
      if sig == SIGCHLD {
        // the exit status of a child would be looked at here
        assert false;
      } else if sig != 0 {
        done := true;
      }
    }

    /** The events of one epoll_wait. */
    method EventRound(events: seq<Event>, done0: bool) returns (done: bool)
      requires Valid() && EventsOk(events)
      modifies this`nodes, this`repr, this`children, repr
      ensures Valid() && fresh(repr - old(repr))
      ensures (Abs(), done) == HandledAll(old(Abs()), events, done0)
    {
      done := done0;
      ghost var d := Abs();
      assert events[0..] == events;
      for i := 0 to |events|
        invariant Valid() && fresh(repr - old(repr))
        invariant HandledAll(d, events, done0) == HandledAll(Abs(), events[i..], done)
      {
        assert EventOk(events[i]) && events[i..][1..] == events[i + 1..];
        done := Handle(events[i], done);
      }
    }

    /** au_fhsmd_loop over the rounds of events that arrive; `returned` is false
        when they stop first. */
    method Loop(rounds: seq<seq<Event>>) returns (returned: bool)
      requires Valid() && RoundsOk(rounds)
      modifies this`nodes, this`repr, this`children, repr
      ensures Valid() && fresh(repr - old(repr))
      ensures (Abs(), returned) == Looped(old(Abs()), rounds, false)
    {
      var done, i := false, 0;
      ghost var d := Abs();
      assert rounds[0..] == rounds;
      while !done || !ListEmpty()
        invariant i <= |rounds| && Valid() && fresh(repr - old(repr))
        invariant Looped(d, rounds, false) == Looped(Abs(), rounds[i..], done)
        decreases |rounds| - i
      {
        NotEmpty();
        if i == |rounds| {
          return false;
        }
        assert rounds[i..][1..] == rounds[i + 1..];
        done := EventRound(rounds[i], done);
        i := i + 1;
      }
      NotEmpty();
      return true;
    }

    /** list_empty */
    predicate ListEmpty()
      reads this, head
    {
      head.next == head
    }

    lemma NotEmpty()
      requires Valid()
      ensures ListEmpty() <==> Entries(nodes) == []
    {
      var c := Round(head, nodes);
      assert c[0] == head && head.next == c[1];
    }
  }
}
