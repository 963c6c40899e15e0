/**
  The ULOOP protocol: any number of readers of the loop device (`uloop_xfer`)
  and any number of daemons (`ulo_loop`, with the `store` of ulobdev) meet
  through three queues. A step is one section that the driver runs under one
  lock, or one call of a daemon. Safety is proved over every interleaving.
  */
module UloopProtocol {
  import opened Basics
  import opened UloopBitmap
  import UloopDaemon
  import Arith

  /** The page size, and the device whose contents the cache file collects. */
  datatype Env = Env(page: nat, target: seq<Byte>)
  {
    ghost predicate Ok() { 0 < page }
    /** Bits in one page of the bitmap. */
    function Bits(): nat { page * 8 }
    function CacheSize(): nat requires 0 < page { UloopDaemon.RoundUp(|target|, page) }
    /** Pages of the cache file, and of the bitmap file that ulo_init makes. */
    function Pages(): nat requires 0 < page { Arith.Quotient(CacheSize(), page) }
    function BitmapPages(): nat requires 0 < page { Arith.Quotient(UloopDaemon.BitmapSize(CacheSize(), page), page) }
  }

  /** The union `ulo_ctl`: each member has its own constructor. */
  datatype Ctl = Ready(pid: nat) | Req(start: nat, size: nat) | Res(start: nat, size: nat)

  /** A transfer of [pos0, pos0 + size) whose loop stands at `pos` with `left` to go. */
  datatype Xfer = Xfer(pos0: nat, size: nat, pos: nat, left: int)

  datatype Reader =
    | Looping(x: Xfer)              // at the head of the loop in uloop_xfer
    | Wanting(x: Xfer)              // its bit was clear: in ulo_xfer_begin
    | Taken(x: Xfer, id: nat)       // holds an element of READY
    | Posted(x: Xfer)               // appended it to RCVREQ, about to signal
    | Awaiting(x: Xfer)             // in ulo_xfer_end, waiting for SNDRES
    | Holding(x: Xfer, id: nat)     // holds an element of SNDRES
    | Matched(x: Xfer, id: nat)     // which answers its own request
    | Done(x: Xfer)                 // returned zero
    | Failed

  datatype Daemon =
    | Idle | Waiting
    | Serving(start: nat, size: nat)
    | Stored(start: nat, size: nat)
    | Dead

  /** `elems` is the slab of queue elements; the queues hold their identities. */
  datatype State = State(
    bmp: Store,
    ready: seq<nat>, rcv: seq<nat>, res: seq<nat>,
    elems: map<nat, Ctl>,
    readers: map<nat, Reader>,
    daemons: map<nat, Daemon>,
    cache: seq<Byte>,
    panicked: bool)

  datatype StoreIo = NotMapped | Copied | CopiedNotUnmapped

  datatype Action =
    | Start(r: nat, pos: nat, size: nat)
    | TestStep(r: nat, w: WriteIo, rd: ReadIo)
    | Finish(r: nat)
    | TakeReady(r: nat)
    | Interrupt(r: nat)
    | Post(r: nat)
    | Kill(r: nat, ok: bool)
    | TakeRes(r: nat)
    | Compare(r: nat)
    | MarkStep(r: nat, w: WriteIo, rd: ReadIo)
    | Spawn(d: nat)
    | SayReady(d: nat, id: nat)
    | Receive(d: nat, copied: bool)
    | Fill(d: nat, io: StoreIo)
    | Send(d: nat, id: nat)
    | Die(d: nat)
    | Reopen(wr: WriteIo)

  function PIndex(env: Env, x: Xfer): nat
    requires 0 < env.page
  {
    Arith.Quotient(x.pos / env.page, env.Bits())
  }

  function BitNo(env: Env, x: Xfer): nat requires 0 < env.page { x.pos / env.page % env.Bits() }
  function Advance(env: Env, x: Xfer): Xfer { x.(pos := x.pos + env.page, left := x.left - env.page) }

  ghost predicate WellFormed(env: Env, s: State) {
    env.Ok() && Valid(s.bmp, env.Bits()) && |s.cache| == env.CacheSize() && UnionOk(s)
  }

  /** What the code and its callers allow in a state: no assumption on I/O yet. */
  ghost predicate Enabled(env: Env, s: State, a: Action)
    requires WellFormed(env, s)
  {
    && !s.panicked
    && match a
    case Start(r, pos, size) =>
      && (r in s.readers ==> s.readers[r].Done? || s.readers[r].Failed?)
      && pos + size <= env.CacheSize()
    case TestStep(r, w, rd) =>
      && r in s.readers && s.readers[r].Looping? && s.readers[r].x.left > 0
      && IoShape(env.Bits(), PIndex(env, s.readers[r].x), w, rd)
    case Finish(r) => r in s.readers && s.readers[r].Looping? && s.readers[r].x.left <= 0
    case TakeReady(r) => r in s.readers && s.readers[r].Wanting? && s.ready != []
    case Interrupt(r) => r in s.readers && (s.readers[r].Wanting? || s.readers[r].Awaiting?)
    case Post(r) => r in s.readers && s.readers[r].Taken?
    case Kill(r, ok) => r in s.readers && s.readers[r].Posted?
    case TakeRes(r) => r in s.readers && s.readers[r].Awaiting? && s.res != []
    case Compare(r) => r in s.readers && s.readers[r].Holding?
    case MarkStep(r, w, rd) =>
      && r in s.readers && s.readers[r].Matched?
      && IoShape(env.Bits(), PIndex(env, s.readers[r].x), w, rd)
    case Spawn(d) => d !in s.daemons || s.daemons[d].Dead?
    case SayReady(d, id) => d in s.daemons && s.daemons[d].Idle? && id !in s.elems
    case Receive(d, copied) => d in s.daemons && s.daemons[d].Waiting?
    case Fill(d, io) => d in s.daemons && s.daemons[d].Serving?
    case Send(d, id) => d in s.daemons && s.daemons[d].Stored? && id !in s.elems
    case Die(d) => d in s.daemons
    case Reopen(wr) =>
      && (forall r <- s.readers :: s.readers[r].Done? || s.readers[r].Failed?)
      && (wr.Torn? ==> |wr.left| == env.Bits())
  }

  /** The state after an action. The element read as a request or a response
      must be one: `UnionOk` below shows that it always is. */
  ghost function Apply(env: Env, s: State, a: Action): State
    requires WellFormed(env, s) && Enabled(env, s, a)
  {
    match a
    case Start(r, pos, size) => s.(readers := s.readers[r := Looping(Xfer(pos, size, pos, size))])
    case TestStep(r, w, rd) =>
      var x := s.readers[r].x;
      var (bmp, rc, isSet) := Exec(s.bmp, Test(PIndex(env, x), BitNo(env, x), w, rd));
      s.(bmp := bmp, panicked := rc == Bug,
         readers := s.readers[r := if rc != Ok then Failed
                                   else if isSet then Looping(Advance(env, x)) else Wanting(x)])
    case Finish(r) => s.(readers := s.readers[r := Done(s.readers[r].x)])
    case TakeReady(r) =>
      s.(ready := s.ready[1..], readers := s.readers[r := Taken(s.readers[r].x, s.ready[0])])
    case Interrupt(r) => s.(readers := s.readers[r := Failed])
    case Post(r) =>
      var Taken(x, id) := s.readers[r];
      s.(elems := s.elems[id := Req(x.pos, env.page)], rcv := s.rcv + [id],
         readers := s.readers[r := Posted(x)])
    case Kill(r, ok) =>
      s.(readers := s.readers[r := if ok then Awaiting(s.readers[r].x) else Failed])
    case TakeRes(r) =>
      s.(res := s.res[1..], readers := s.readers[r := Holding(s.readers[r].x, s.res[0])])
    case Compare(r) =>
      var Holding(x, id) := s.readers[r];
      if s.elems[id].start == x.pos && s.elems[id].size == env.page
      then s.(readers := s.readers[r := Matched(x, id)])
      else s.(res := s.res + [id], readers := s.readers[r := Awaiting(x)])
    case MarkStep(r, w, rd) =>
      var Matched(x, id) := s.readers[r];
      var (bmp, rc, _) := Exec(s.bmp, Mark(PIndex(env, x), BitNo(env, x), w, rd));
      s.(bmp := bmp, panicked := rc == Bug, elems := s.elems - {id},
         readers := s.readers[r := if rc != Ok then Failed else Looping(Advance(env, x))])
    case Spawn(d) => s.(daemons := s.daemons[d := Idle])
    case SayReady(d, id) =>
      s.(elems := s.elems[id := Ready(d)], ready := s.ready + [id], daemons := s.daemons[d := Waiting])
    case Receive(d, copied) =>
      if s.rcv == [] then s.(daemons := s.daemons[d := Dead])
      else
        var id := s.rcv[0];
        if copied
        then s.(rcv := s.rcv[1..], elems := s.elems - {id},
                daemons := s.daemons[d := Serving(s.elems[id].start, s.elems[id].size)])
        else s.(rcv := s.rcv[1..] + [id], daemons := s.daemons[d := Dead])
    case Fill(d, io) =>
      var Serving(start, size) := s.daemons[d];
      if !UloopDaemon.InCache(start, size, |s.cache|) || io.NotMapped?
      then s.(daemons := s.daemons[d := Dead])
      else s.(cache := UloopDaemon.StoredCache(s.cache, env.target, start, size, env.page),
              daemons := s.daemons[d := if io.Copied? then Stored(start, size) else Dead])
    case Send(d, id) =>
      var Stored(start, size) := s.daemons[d];
      s.(elems := s.elems[id := Res(start, size)], res := s.res + [id], daemons := s.daemons[d := Idle])
    case Die(d) => s.(daemons := s.daemons[d := Dead])
    case Reopen(wr) =>
      State(Exec(s.bmp, Op.Reopen(wr)).0, [], [], [], map[], map[], s.daemons, s.cache, false)
  }

  // ---- ownership of the queue elements

  ghost predicate Holds(rd: Reader, id: nat) {
    (rd.Taken? || rd.Holding? || rd.Matched?) && rd.id == id
  }

  ghost predicate HoldsAt(readers: map<nat, Reader>, r: nat, id: nat) {
    r in readers && Holds(readers[r], id)
  }

  /** Some reader other than p and r holds the element. */
  ghost predicate HeldBut(readers: map<nat, Reader>, p: nat, r: nat, id: nat) {
    exists q :: q != p && q != r && HoldsAt(readers, q, id)
  }

  /** How many owners element id has: in the queues, reader r, another reader. */
  ghost function Owners(queued: multiset<nat>, readers: map<nat, Reader>, r: nat, id: nat): nat {
    queued[id] + One(HoldsAt(readers, r, id)) + One(HeldBut(readers, r, r, id))
  }

  ghost function Queued(s: State): multiset<nat> {
    multiset(s.ready) + multiset(s.rcv) + multiset(s.res)
  }

  /** Every live element has exactly one owner, the queues or one reader, and
      nothing else is owned: no leak, no double queueing, no use after free. */
  ghost predicate Owned(queued: multiset<nat>, live: set<nat>, readers: map<nat, Reader>) {
    forall r: nat, id: nat :: Owners(queued, readers, r, id) == One(id in live)
  }

  ghost predicate OneOwner(s: State) { Owned(Queued(s), s.elems.Keys, s.readers) }

  /** The union member that will be read is the one last written. */
  ghost predicate UnionOk(s: State) {
    && (forall id :: id in s.ready ==> id in s.elems && s.elems[id].Ready?)
    && (forall id :: id in s.rcv ==> id in s.elems && s.elems[id].Req?)
    && (forall id :: id in s.res ==> id in s.elems && s.elems[id].Res?)
    && (forall r :: r in s.readers && s.readers[r].Taken? ==>
          s.readers[r].id in s.elems && s.elems[s.readers[r].id].Ready?)
    && (forall r :: r in s.readers && (s.readers[r].Holding? || s.readers[r].Matched?) ==>
          s.readers[r].id in s.elems && s.elems[s.readers[r].id].Res?)
  }

  // ---- contents of the cache

  /** Page k of the cache agrees with the target, as far as the target goes. */
  ghost predicate Filled(env: Env, cache: seq<Byte>, k: int)
    requires env.Ok()
  {
    forall o :: 0 <= o < |env.target| && o / env.page == k ==> o < |cache| && cache[o] == env.target[o]
  }

  /** A bit set in the window or on the disk stands for a filled page. */
  ghost predicate BitsOk(env: Env, bmp: Store, cache: seq<Byte>)
    requires env.Ok() && Valid(bmp, env.Bits())
  {
    && (forall p, b :: 0 <= p < |bmp.file| && 0 <= b < env.Bits() && bmp.file[p][b] ==>
          Filled(env, cache, p * env.Bits() + b))
    && (forall b :: 0 <= b < env.Bits() && bmp.buf[b] ==>
          Filled(env, cache, bmp.idx * env.Bits() + b))
  }

  ghost predicate XferOk(env: Env, cache: seq<Byte>, x: Xfer)
    requires env.Ok()
  {
    && x.pos0 <= x.pos && x.pos + x.left == x.pos0 + x.size
    && 0 < x.left + env.page && x.pos % env.page == x.pos0 % env.page
    && x.pos0 + x.size <= env.CacheSize()
    && (forall k :: x.pos0 / env.page <= k < x.pos / env.page ==> Filled(env, cache, k))
  }

  ghost predicate ReaderOk(env: Env, cache: seq<Byte>, elems: map<nat, Ctl>, rd: Reader)
    requires env.Ok()
  {
    && (!rd.Failed? ==> XferOk(env, cache, rd.x))
    && (rd.Done? ==> rd.x.left <= 0)
    && (!rd.Failed? && !rd.Done? && !rd.Looping? ==> 0 < rd.x.left)
    && (rd.Matched? ==> rd.id in elems && elems[rd.id] == Res(rd.x.pos, env.page))
  }

  ghost predicate AnswerOk(env: Env, cache: seq<Byte>, start: nat, size: nat)
    requires env.Ok()
  {
    size == env.page && Filled(env, cache, start / env.page)
  }

  ghost predicate ElemsOk(env: Env, cache: seq<Byte>, elems: map<nat, Ctl>)
    requires env.Ok()
  {
    forall id :: id in elems ==>
      && (elems[id].Req? ==> elems[id].size == env.page && elems[id].start < env.CacheSize())
      && (elems[id].Res? ==> AnswerOk(env, cache, elems[id].start, elems[id].size))
  }

  ghost predicate DaemonsOk(env: Env, cache: seq<Byte>, daemons: map<nat, Daemon>)
    requires env.Ok()
  {
    forall d :: d in daemons ==>
      && (daemons[d].Serving? ==> daemons[d].size == env.page && daemons[d].start < env.CacheSize())
      && (daemons[d].Stored? ==> AnswerOk(env, cache, daemons[d].start, daemons[d].size))
  }

  ghost predicate ReadersOk(env: Env, cache: seq<Byte>, elems: map<nat, Ctl>, readers: map<nat, Reader>)
    requires env.Ok()
  {
    forall r :: r in readers ==> ReaderOk(env, cache, elems, readers[r])
  }

  ghost predicate DataOk(env: Env, s: State)
    requires WellFormed(env, s)
  {
    && BitsOk(env, s.bmp, s.cache)
    && ElemsOk(env, s.cache, s.elems)
    && DaemonsOk(env, s.cache, s.daemons)
    && ReadersOk(env, s.cache, s.elems, s.readers)
  }

  ghost predicate Inv(env: Env, s: State) {
    WellFormed(env, s) && OneOwner(s) && DataOk(env, s)
  }

  /** A fresh device: nobody there, and a bitmap that is true of the cache, such
      as an all-zero one or one left by an earlier use of the same cache. */
  ghost predicate Init(env: Env, s: State) {
    && env.Ok() && s.ready == s.rcv == s.res == [] && s.elems == map[]
    && s.readers == map[] && s.daemons == map[] && !s.panicked
    && |s.cache| == env.CacheSize()
    && Valid(s.bmp, env.Bits()) && BitsOk(env, s.bmp, s.cache)
  }

  /** The I/O contract: a torn write leaves each bit old or new, and a failed
      read of the bitmap leaves a page in the window that is true of the cache. */
  ghost predicate Benign(env: Env, s: State, a: Action)
    requires WellFormed(env, s) && Enabled(env, s, a)
  {
    WriteOk(s, a) && (Switches(a) ==> ReadSafe(env, s.bmp, s.cache, PIndex(env, s.readers[a.r].x), a.w, a.rd))
  }

  predicate Switches(a: Action) { a.TestStep? || a.MarkStep? }

  ghost predicate WriteOk(s: State, a: Action)
    requires s.bmp.idx < |s.bmp.file|
  {
    (Switches(a) ==> TornOk(s.bmp, a.w)) && (a.Reopen? ==> TornOk(s.bmp, a.wr))
  }

  /** The read of bitmap page p takes place and fails. */
  predicate ReadFails(bmp: Store, p: nat, w: WriteIo, rd: ReadIo) {
    p != bmp.idx && p < |bmp.file| && w.Written? && !rd.Loaded?
  }

  /** Then this is the page in the window: the one before p, or junk. */
  function LeftPage(bmp: Store, p: nat, rd: ReadIo): Page
    requires p < |bmp.file| && (rd.Restored? ==> 0 < p)
  {
    match rd
    case Lost(junk) => junk
    case _ => if p == 0 || bmp.idx == p - 1 then bmp.buf else bmp.file[p - 1]
  }

  /** Bit b of a page stands for a page of the cache that is not filled. */
  ghost predicate Lies(env: Env, cache: seq<Byte>, page: Page, idx: nat, b: nat)
    requires env.Ok()
  {
    b < |page| && page[b] && !Filled(env, cache, idx * env.Bits() + b)
  }

  /** A failed read is safe when no bit of the page left in the window lies
      about the page of the cache it will be read for. */
  ghost predicate ReadSafe(env: Env, bmp: Store, cache: seq<Byte>, p: nat, w: WriteIo, rd: ReadIo)
    requires env.Ok() && (rd.Restored? ==> 0 < p)
  {
    ReadFails(bmp, p, w, rd) ==> forall b: nat :: !Lies(env, cache, LeftPage(bmp, p, rd), bmp.idx, b)
  }

  ghost predicate TornOk(bmp: Store, w: WriteIo)
    requires bmp.idx < |bmp.file|
  {
    w.Torn? ==> forall b :: 0 <= b < |w.left| && w.left[b] ==>
      (b < |bmp.buf| && bmp.buf[b]) || (b < |bmp.file[bmp.idx]| && bmp.file[bmp.idx][b])
  }

  // ---- every step keeps the invariant

  lemma QueuePop(q: seq<nat>)
    requires q != []
    ensures multiset(q) == multiset(q[1..]) + multiset{q[0]}
    ensures forall id :: id in q[1..] ==> id in q
  {
    assert q == [q[0]] + q[1..];
  }

  /** One reader changes hands with the queues and the slab; if the books
      balance for every element, each one has exactly one owner again. */
  lemma Rebalance(q: multiset<nat>, live: set<nat>, readers: map<nat, Reader>,
                  q': multiset<nat>, live': set<nat>, r: nat, rd: Reader)
    requires Owned(q, live, readers)
    requires forall id: nat ::
      One(id in live) + q'[id] + One(Holds(rd, id)) == One(id in live') + q[id] + One(HoldsAt(readers, r, id))
    ensures Owned(q', live', readers[r := rd])
  {
    var readers' := readers[r := rd];
    forall p: nat, id: nat ensures Owners(q', readers', p, id) == One(id in live') {
      assert Owners(q, readers, r, id) == One(id in live) == Owners(q, readers, p, id);
      HeldUpdate(readers, r, rd, p, id);
      if p != r {
        HeldSplit(readers, p, r, id);
        HeldSplit(readers', p, r, id);
      }
    }
  }

  lemma HeldSplit(readers: map<nat, Reader>, p: nat, r: nat, id: nat)
    requires p != r
    ensures HeldBut(readers, p, p, id) <==> HoldsAt(readers, r, id) || HeldBut(readers, p, r, id)
    ensures HeldBut(readers, r, r, id) <==> HoldsAt(readers, p, id) || HeldBut(readers, p, r, id)
  {
  }

  lemma HeldUpdate(readers: map<nat, Reader>, r: nat, rd: Reader, p: nat, id: nat)
    ensures HeldBut(readers[r := rd], p, r, id) <==> HeldBut(readers, p, r, id)
    ensures HeldBut(readers[r := rd], r, r, id) <==> HeldBut(readers, r, r, id)
    ensures HoldsAt(readers[r := rd], r, id) <==> Holds(rd, id)
    ensures p != r ==> (HoldsAt(readers[r := rd], p, id) <==> HoldsAt(readers, p, id))
  {
    var readers' := readers[r := rd];
    assert forall q :: q != r ==> (HoldsAt(readers', q, id) <==> HoldsAt(readers, q, id));
  }

  lemma OwnersIdle(env: Env, s: State, a: Action)
    requires WellFormed(env, s) && OneOwner(s) && Enabled(env, s, a)
    requires a.Start? || a.TestStep? || a.Finish? || a.Interrupt? || a.Kill?
    ensures OneOwner(Apply(env, s, a))
  {
    var s' := Apply(env, s, a);
    Rebalance(Queued(s), s.elems.Keys, s.readers, Queued(s'), s'.elems.Keys, a.r, s'.readers[a.r]);
  }

  lemma OwnersTakeReady(env: Env, s: State, a: Action)
    requires WellFormed(env, s) && OneOwner(s) && Enabled(env, s, a)
    requires a.TakeReady?
    ensures OneOwner(Apply(env, s, a))
  {
    var s' := Apply(env, s, a);
    QueuePop(s.ready);
    Rebalance(Queued(s), s.elems.Keys, s.readers, Queued(s'), s'.elems.Keys, a.r, s'.readers[a.r]);
  }

  lemma OwnersTakeRes(env: Env, s: State, a: Action)
    requires WellFormed(env, s) && OneOwner(s) && Enabled(env, s, a)
    requires a.TakeRes?
    ensures OneOwner(Apply(env, s, a))
  {
    var s' := Apply(env, s, a);
    QueuePop(s.res);
    Rebalance(Queued(s), s.elems.Keys, s.readers, Queued(s'), s'.elems.Keys, a.r, s'.readers[a.r]);
  }

  lemma OwnersPost(env: Env, s: State, a: Action)
    requires WellFormed(env, s) && OneOwner(s) && Enabled(env, s, a) && a.Post?
    ensures OneOwner(Apply(env, s, a))
  {
    var s' := Apply(env, s, a);
    Rebalance(Queued(s), s.elems.Keys, s.readers, Queued(s'), s'.elems.Keys, a.r, s'.readers[a.r]);
  }

  lemma OwnersCompare(env: Env, s: State, a: Action)
    requires WellFormed(env, s) && OneOwner(s) && Enabled(env, s, a) && a.Compare?
    ensures OneOwner(Apply(env, s, a))
  {
    var s' := Apply(env, s, a);
    Rebalance(Queued(s), s.elems.Keys, s.readers, Queued(s'), s'.elems.Keys, a.r, s'.readers[a.r]);
  }

  lemma OwnersMark(env: Env, s: State, a: Action)
    requires WellFormed(env, s) && OneOwner(s) && Enabled(env, s, a) && a.MarkStep?
    ensures OneOwner(Apply(env, s, a))
  {
    var s' := Apply(env, s, a);
    Rebalance(Queued(s), s.elems.Keys, s.readers, Queued(s'), s'.elems.Keys, a.r, s'.readers[a.r]);
  }

  lemma OwnersAlloc(env: Env, s: State, a: Action)
    requires WellFormed(env, s) && OneOwner(s) && Enabled(env, s, a)
    requires a.SayReady? || a.Send?
    ensures OneOwner(Apply(env, s, a))
  {
    var s' := Apply(env, s, a);
    forall r: nat, id: nat ensures Owners(Queued(s'), s'.readers, r, id) == One(id in s'.elems) {
      assert Owners(Queued(s), s.readers, r, id) == One(id in s.elems);
    }
  }

  lemma OwnersReceive(env: Env, s: State, a: Action)
    requires WellFormed(env, s) && OneOwner(s) && Enabled(env, s, a) && a.Receive?
    ensures OneOwner(Apply(env, s, a))
  {
    var s' := Apply(env, s, a);
    if s.rcv != [] { QueuePop(s.rcv); }
    forall r: nat, id: nat ensures Owners(Queued(s'), s'.readers, r, id) == One(id in s'.elems) {
      assert Owners(Queued(s), s.readers, r, id) == One(id in s.elems);
    }
  }

  lemma OwnersKept(env: Env, s: State, a: Action)
    requires WellFormed(env, s) && OneOwner(s) && Enabled(env, s, a)
    ensures OneOwner(Apply(env, s, a))
  {
    if a.Start? || a.TestStep? || a.Finish? || a.Interrupt? || a.Kill? {
      OwnersIdle(env, s, a);
    } else if a.TakeReady? {
      OwnersTakeReady(env, s, a);
    } else if a.TakeRes? {
      OwnersTakeRes(env, s, a);
    } else if a.Post? {
      OwnersPost(env, s, a);
    } else if a.Compare? {
      OwnersCompare(env, s, a);
    } else if a.MarkStep? {
      OwnersMark(env, s, a);
    } else if a.SayReady? || a.Send? {
      OwnersAlloc(env, s, a);
    } else if a.Receive? {
      OwnersReceive(env, s, a);
    }
  }

  lemma HandFacts(s: State, r: nat, id: nat)
    requires OneOwner(s) && HoldsAt(s.readers, r, id)
    ensures id in s.elems && id !in s.ready && id !in s.rcv && id !in s.res
    ensures forall q :: q != r ==> !HoldsAt(s.readers, q, id)
  {
    assert Owners(Queued(s), s.readers, r, id) == One(id in s.elems);
    assert Queued(s)[id] == 0;
  }

  lemma QueueFacts(s: State, id: nat)
    requires OneOwner(s) && (id in s.ready || id in s.rcv || id in s.res)
    ensures id in s.elems && Queued(s)[id] == 1
    ensures forall r :: !HoldsAt(s.readers, r, id)
  {
    assert Owners(Queued(s), s.readers, 0, id) == One(id in s.elems);
    forall r: nat ensures !HoldsAt(s.readers, r, id) {
      assert Owners(Queued(s), s.readers, r, id) == One(id in s.elems);
    }
  }

  // ---- pages and bits

  lemma PageNumber(env: Env, x: Xfer)
    requires env.Ok()
    ensures BitNo(env, x) < env.Bits()
    ensures PIndex(env, x) * env.Bits() + BitNo(env, x) == x.pos / env.page
  {
  }

  lemma BitsAfterSwitch(env: Env, bmp: Store, cache: seq<Byte>, p: nat, w: WriteIo, rd: ReadIo)
    requires env.Ok() && Valid(bmp, env.Bits()) && BitsOk(env, bmp, cache)
    requires IoShape(env.Bits(), p, w, rd) && TornOk(bmp, w)
    ensures Valid(SwitchTo(bmp, p, w, rd).0, env.Bits())
    ensures BitsOk(env, SwitchTo(bmp, p, w, rd).0, cache) <==> ReadSafe(env, bmp, cache, p, w, rd)
    ensures ReadFails(bmp, p, w, rd) ==>
      var (bmp', rc) := SwitchTo(bmp, p, w, rd);
      rc == Err && bmp'.idx == bmp.idx && bmp'.buf == LeftPage(bmp, p, rd)
    ensures Harmless(bmp, p, w, rd) ==> ReadSafe(env, bmp, cache, p, w, rd)
  {
    SwitchKeepsFlat(bmp, env.Bits(), p, w, rd);
    var bmp' := SwitchTo(bmp, p, w, rd).0;
    if ReadFails(bmp, p, w, rd) {
      assert bmp' == Store(bmp.file[bmp.idx := bmp.buf], bmp.idx, LeftPage(bmp, p, rd));
      if BitsOk(env, bmp', cache) {
        forall b: nat ensures !Lies(env, cache, bmp'.buf, bmp.idx, b) {
        }
      } else if forall b: nat :: !Lies(env, cache, bmp'.buf, bmp.idx, b) {
        forall b | 0 <= b < env.Bits() && bmp'.buf[b] ensures Filled(env, cache, bmp.idx * env.Bits() + b) {
          assert !Lies(env, cache, bmp'.buf, bmp.idx, b);
        }
      }
    }
  }

  lemma BitsAfterMark(env: Env, bmp: Store, cache: seq<Byte>, p: nat, b: nat, w: WriteIo, rd: ReadIo)
    requires env.Ok() && Valid(bmp, env.Bits()) && BitsOk(env, bmp, cache) && b < env.Bits()
    requires IoShape(env.Bits(), p, w, rd) && TornOk(bmp, w) && ReadSafe(env, bmp, cache, p, w, rd)
    requires Filled(env, cache, p * env.Bits() + b)
    ensures var bmp' := Exec(bmp, Mark(p, b, w, rd)).0;
            Valid(bmp', env.Bits()) && BitsOk(env, bmp', cache)
  {
    BitsAfterSwitch(env, bmp, cache, p, w, rd);
    SwitchKeepsFlat(bmp, env.Bits(), p, w, rd);
  }

  /** A step of the transfer loop: one more page is known to be filled. */
  lemma AdvanceOk(env: Env, cache: seq<Byte>, x: Xfer)
    requires env.Ok() && XferOk(env, cache, x) && 0 < x.left && Filled(env, cache, x.pos / env.page)
    ensures XferOk(env, cache, Advance(env, x))
  {
    Arith.NextQuotient(x.pos, env.page);
  }

  /** Storing never damages a page, and fills the page of an aligned-size request. */
  lemma StoreFills(env: Env, cache: seq<Byte>, start: nat, size: nat)
    requires env.Ok() && |cache| == env.CacheSize() && UloopDaemon.InCache(start, size, |cache|)
    ensures var cache' := UloopDaemon.StoredCache(cache, env.target, start, size, env.page);
            && (forall k :: Filled(env, cache, k) ==> Filled(env, cache', k))
            && (size == env.page ==> Filled(env, cache', start / env.page))
  {
    var cache' := UloopDaemon.StoredCache(cache, env.target, start, size, env.page);
    UloopDaemon.RoundUpProps(|env.target|, env.page);
    if size + start % env.page != 0 {
      UloopDaemon.RangeProps(start, size, env.page, |env.target|);
      var (from, len) := UloopDaemon.Range(start, size, env.page, |env.target|);
      forall o | 0 <= o < |env.target|
        ensures cache'[o] == if from <= o < from + len then env.target[o] else cache[o]
        ensures o / env.page == start / env.page && size == env.page ==> from <= o < from + len
      {
        Arith.SameBlock(o, start, env.page);
      }
    }
  }

  // ---- every step keeps the data invariant

  lemma CacheGrows(env: Env, s: State, cache': seq<Byte>)
    requires WellFormed(env, s) && DataOk(env, s)
    requires forall k :: Filled(env, s.cache, k) ==> Filled(env, cache', k)
    ensures BitsOk(env, s.bmp, cache') && ElemsOk(env, cache', s.elems)
    ensures DaemonsOk(env, cache', s.daemons) && ReadersOk(env, cache', s.elems, s.readers)
  {
  }

  lemma UnionIdle(env: Env, s: State, a: Action)
    requires WellFormed(env, s) && Enabled(env, s, a)
    requires a.Start? || a.TestStep? || a.Finish? || a.Interrupt? || a.Kill?
    ensures UnionOk(Apply(env, s, a))
  {
  }

  lemma UnionDaemon(env: Env, s: State, a: Action)
    requires WellFormed(env, s) && Enabled(env, s, a)
    requires a.Spawn? || a.Fill? || a.Die? || a.Reopen?
    ensures UnionOk(Apply(env, s, a))
  {
  }

  lemma UnionAlloc(env: Env, s: State, a: Action)
    requires WellFormed(env, s) && Enabled(env, s, a) && (a.SayReady? || a.Send?)
    ensures UnionOk(Apply(env, s, a))
  {
  }

  lemma UnionTake(env: Env, s: State, a: Action)
    requires WellFormed(env, s) && Enabled(env, s, a)
    requires a.TakeReady? || a.TakeRes?
    ensures UnionOk(Apply(env, s, a))
  {
  }

  lemma UnionGive(env: Env, s: State, a: Action)
    requires WellFormed(env, s) && OneOwner(s) && Enabled(env, s, a)
    requires a.Post? || a.Compare? || a.MarkStep?
    ensures UnionOk(Apply(env, s, a))
  {
    var id := s.readers[a.r].id;
    assert HoldsAt(s.readers, a.r, id);
    HandFacts(s, a.r, id);
    forall q | q in s.readers && q != a.r ensures !Holds(s.readers[q], id) {
      assert !HoldsAt(s.readers, q, id);
    }
  }

  lemma UnionReceive(env: Env, s: State, a: Action)
    requires WellFormed(env, s) && OneOwner(s) && Enabled(env, s, a) && a.Receive?
    ensures UnionOk(Apply(env, s, a))
  {
    if s.rcv != [] {
      var id := s.rcv[0];
      QueuePop(s.rcv);
      QueueFacts(s, id);
      assert id !in s.rcv[1..] && id !in s.ready && id !in s.res;
      forall q | q in s.readers ensures !Holds(s.readers[q], id) {
        assert !HoldsAt(s.readers, q, id);
      }
    }
  }

  lemma UnionKept(env: Env, s: State, a: Action)
    requires WellFormed(env, s) && OneOwner(s) && Enabled(env, s, a)
    ensures UnionOk(Apply(env, s, a))
  {
    if a.TakeReady? || a.TakeRes? {
      UnionTake(env, s, a);
    } else if a.Post? || a.Compare? || a.MarkStep? {
      UnionGive(env, s, a);
    } else if a.Receive? {
      UnionReceive(env, s, a);
    } else if a.SayReady? || a.Send? {
      UnionAlloc(env, s, a);
    } else if a.Spawn? || a.Fill? || a.Die? || a.Reopen? {
      UnionDaemon(env, s, a);
    } else {
      UnionIdle(env, s, a);
    }
  }

  ghost predicate ShapeKept(env: Env, s: State)
    requires env.Ok()
  {
    Valid(s.bmp, env.Bits()) && |s.cache| == env.CacheSize()
  }

  ghost predicate Kept(env: Env, s: State) {
    env.Ok() && ShapeKept(env, s) && BitsOk(env, s.bmp, s.cache)
    && ElemsOk(env, s.cache, s.elems) && DaemonsOk(env, s.cache, s.daemons)
    && ReadersOk(env, s.cache, s.elems, s.readers)
  }

  lemma DataIdle(env: Env, s: State, a: Action)
    requires Inv(env, s) && Enabled(env, s, a)
    requires a.Start? || a.Finish? || a.Interrupt? || a.Kill? || a.TakeReady? || a.TakeRes? || a.Compare?
    ensures Kept(env, Apply(env, s, a))
  {
  }

  lemma DataTest(env: Env, s: State, a: Action)
    requires Inv(env, s) && Enabled(env, s, a) && Benign(env, s, a) && a.TestStep?
    ensures Kept(env, Apply(env, s, a))
  {
    var x := s.readers[a.r].x;
    var p, b := PIndex(env, x), BitNo(env, x);
    PageNumber(env, x);
    BitsAfterSwitch(env, s.bmp, s.cache, p, a.w, a.rd);
    SwitchKeepsFlat(s.bmp, env.Bits(), p, a.w, a.rd);
    assert ReaderOk(env, s.cache, s.elems, s.readers[a.r]);
    var (bmp, rc, isSet) := Exec(s.bmp, Test(p, b, a.w, a.rd));
    if rc == Ok && isSet {
      AdvanceOk(env, s.cache, x);
    }
    assert ReaderOk(env, s.cache, s.elems, Apply(env, s, a).readers[a.r]);
  }

  lemma DataMark(env: Env, s: State, a: Action)
    requires Inv(env, s) && Enabled(env, s, a) && Benign(env, s, a) && a.MarkStep?
    ensures Kept(env, Apply(env, s, a))
  {
    var Matched(x, id) := s.readers[a.r];
    PageNumber(env, x);
    assert ReaderOk(env, s.cache, s.elems, s.readers[a.r]);
    BitsAfterMark(env, s.bmp, s.cache, PIndex(env, x), BitNo(env, x), a.w, a.rd);
    AdvanceOk(env, s.cache, x);
    assert HoldsAt(s.readers, a.r, id);
    HandFacts(s, a.r, id);
    forall q | q in s.readers && q != a.r ensures !Holds(s.readers[q], id) {
      assert !HoldsAt(s.readers, q, id);
    }
  }

  lemma DataPost(env: Env, s: State, a: Action)
    requires Inv(env, s) && Enabled(env, s, a) && a.Post?
    ensures Kept(env, Apply(env, s, a))
  {
  }

  lemma DataDaemon(env: Env, s: State, a: Action)
    requires Inv(env, s) && Enabled(env, s, a)
    requires a.Spawn? || a.SayReady? || a.Send? || a.Die?
    ensures Kept(env, Apply(env, s, a))
  {
  }

  lemma DataReceive(env: Env, s: State, a: Action)
    requires Inv(env, s) && Enabled(env, s, a) && a.Receive?
    ensures Kept(env, Apply(env, s, a))
  {
  }

  lemma DataFill(env: Env, s: State, a: Action)
    requires Inv(env, s) && Enabled(env, s, a) && a.Fill?
    ensures Kept(env, Apply(env, s, a))
  {
    var Serving(start, size) := s.daemons[a.d];
    if UloopDaemon.InCache(start, size, |s.cache|) {
      StoreFills(env, s.cache, start, size);
      CacheGrows(env, s, UloopDaemon.StoredCache(s.cache, env.target, start, size, env.page));
    }
  }

  lemma DataReopen(env: Env, s: State, a: Action)
    requires Inv(env, s) && Enabled(env, s, a) && Benign(env, s, a) && a.Reopen?
    ensures Kept(env, Apply(env, s, a))
  {
  }

  lemma InvKept(env: Env, s: State, a: Action)
    requires Inv(env, s) && Enabled(env, s, a) && Benign(env, s, a)
    ensures Inv(env, Apply(env, s, a))
  {
    OwnersKept(env, s, a);
    UnionKept(env, s, a);
    assert Kept(env, Apply(env, s, a)) by {
      match a
      case TestStep(_, _, _) => DataTest(env, s, a);
      case MarkStep(_, _, _) => DataMark(env, s, a);
      case Post(_) => DataPost(env, s, a);
      case Receive(_, _) => DataReceive(env, s, a);
      case Fill(_, _) => DataFill(env, s, a);
      case Reopen(_) => DataReopen(env, s, a);
      case Spawn(_) => DataDaemon(env, s, a);
      case SayReady(_, _) => DataDaemon(env, s, a);
      case Send(_, _) => DataDaemon(env, s, a);
      case Die(_) => DataDaemon(env, s, a);
      case _ => DataIdle(env, s, a);
    }
  }

  /** A daemon aborts in `store` exactly when it serves a request that begins inside
      the last page, but not at its boundary. */
  lemma AbortsIff(env: Env, s: State, d: nat)
    requires Inv(env, s) && d in s.daemons && s.daemons[d].Serving?
    ensures var start := s.daemons[d].start;
      !UloopDaemon.InCache(start, s.daemons[d].size, |s.cache|) <==>
        start % env.page != 0 && start / env.page + 1 == env.Pages()
  {
    UloopDaemon.RoundUpProps(|env.target|, env.page);
    UloopDaemon.AssertionFailsIff(s.daemons[d].start, env.page, env.CacheSize());
  }

  // ---- runs

  ghost predicate StepTo(env: Env, s: State, a: Action, s': State) {
    WellFormed(env, s) && Enabled(env, s, a) && s' == Apply(env, s, a)
  }

  /** The actions lead from s to s'; a `benign` run keeps the I/O contract. */
  ghost predicate Run(env: Env, s: State, acts: seq<Action>, s': State, benign: bool)
    decreases |acts|
  {
    if acts == [] then s' == s
    else
      && WellFormed(env, s) && Enabled(env, s, acts[0])
      && (benign ==> Benign(env, s, acts[0]))
      && Run(env, Apply(env, s, acts[0]), acts[1..], s', benign)
  }

  lemma Prepend(env: Env, s: State, a: Action, s1: State, acts: seq<Action>, s': State, benign: bool)
    requires StepTo(env, s, a, s1) && (benign ==> Benign(env, s, a)) && Run(env, s1, acts, s', benign)
    ensures Run(env, s, [a] + acts, s', benign)
  {
  }

  lemma InitInv(env: Env, s: State)
    requires Init(env, s)
    ensures Inv(env, s)
  {
  }

  /** Safety of every reachable state, over every interleaving. */
  lemma {:induction false} RunSafe(env: Env, s: State, acts: seq<Action>, s': State)
    requires Inv(env, s) && Run(env, s, acts, s', true)
    ensures Inv(env, s')
    decreases |acts|
  {
    if acts != [] {
      InvKept(env, s, acts[0]);
      RunSafe(env, Apply(env, s, acts[0]), acts[1..], s');
    }
  }

  /** The pages that the loop of uloop_xfer visits contain every byte asked for. */
  predicate Covered(page: nat, pos: nat, size: nat)
    requires 0 < page
  {
    size == 0 || pos % page + size <= UloopDaemon.RoundUp(size, page)
  }

  /** Every transfer that starts on a page boundary is covered. */
  lemma AlignedIsCovered(page: nat, pos: nat, size: nat)
    requires 0 < page && pos % page == 0
    ensures Covered(page, pos, size)
  {
  }

  /** The loop ends after RoundUp(size) bytes; its pages stop short of the last
      byte's page exactly when the transfer is not covered. */
  lemma LoopPages(page: nat, pos0: nat, size: nat, pos: nat)
    requires 0 < page && 0 < size
    requires pos0 + size <= pos < pos0 + size + page && pos % page == pos0 % page
    ensures pos == pos0 + UloopDaemon.RoundUp(size, page)
    ensures Covered(page, pos0, size) <==> (pos0 + size - 1) / page < pos / page
  {
    UloopDaemon.RoundUpProps(size, page);
    Arith.SameRest(pos0, pos, UloopDaemon.RoundUp(size, page), page);
    Arith.Split(pos, page);
    Arith.Below(pos0 + size - 1, pos / page, page);
  }

  /** A covered transfer that returned zero has the target's data in the cache. */
  lemma Delivered(env: Env, s0: State, acts: seq<Action>, s: State, r: nat)
    requires Init(env, s0) && Run(env, s0, acts, s, true)
    requires r in s.readers && s.readers[r].Done?
    requires Covered(env.page, s.readers[r].x.pos0, s.readers[r].x.size)
    ensures var x := s.readers[r].x;
            |s.cache| >= x.pos0 + x.size
            && forall o :: x.pos0 <= o < x.pos0 + x.size && o < |env.target| ==> s.cache[o] == env.target[o]
  {
    InitInv(env, s0);
    RunSafe(env, s0, acts, s);
    var x := s.readers[r].x;
    assert ReaderOk(env, s.cache, s.elems, s.readers[r]);
    forall o | x.pos0 <= o < x.pos0 + x.size && o < |env.target|
      ensures s.cache[o] == env.target[o]
    {
      ByteDelivered(env, s, r, o);
    }
  }

  lemma ByteDelivered(env: Env, s: State, r: nat, o: nat)
    requires Inv(env, s) && r in s.readers && s.readers[r].Done?
    requires var x := s.readers[r].x; Covered(env.page, x.pos0, x.size) && x.pos0 <= o < x.pos0 + x.size
    requires o < |env.target|
    ensures o < |s.cache| && s.cache[o] == env.target[o]
  {
    var x := s.readers[r].x;
    assert ReaderOk(env, s.cache, s.elems, s.readers[r]);
    LoopPages(env.page, x.pos0, x.size, x.pos);
    Arith.Monotone(x.pos0, o, env.page);
    Arith.Monotone(o, x.pos0 + x.size - 1, env.page);
    assert Filled(env, s.cache, o / env.page);
  }

  /** Transfer r returned zero and covers byte o, which is not the target's. */
  ghost predicate Wrong(env: Env, s: State, r: nat, o: nat) {
    && 0 < env.page && r in s.readers && s.readers[r].Done?
    && Covered(env.page, s.readers[r].x.pos0, s.readers[r].x.size)
    && s.readers[r].x.pos0 <= o < s.readers[r].x.pos0 + s.readers[r].x.size
    && o < |env.target| && !(o < |s.cache| && s.cache[o] == env.target[o])
  }

  ghost predicate GoesWrong(env: Env, s: State, acts: seq<Action>, s': State, benign: bool, r: nat, o: nat) {
    Run(env, s, acts, s', benign) && Wrong(env, s', r, o)
  }

  lemma NeverWrong(env: Env, s: State, r: nat, o: nat)
    requires Inv(env, s)
    ensures !Wrong(env, s, r, o)
  {
    if Wrong(env, s, r, o) { ByteDelivered(env, s, r, o); }
  }

  // ---- failed reads of the bitmap, exactly

  /** A page of the cache that is not filled lies inside it. */
  lemma UnfilledPage(env: Env, cache: seq<Byte>, k: nat) returns (o: nat)
    requires env.Ok() && |cache| == env.CacheSize() && !Filled(env, cache, k)
    ensures o < |env.target| && k * env.page <= o < k * env.page + env.page <= env.CacheSize()
    ensures !(o < |cache| && cache[o] == env.target[o])
  {
    o :| 0 <= o < |env.target| && o / env.page == k && !(o < |cache| && cache[o] == env.target[o]);
    Arith.Split(o, env.page);
    UloopDaemon.RoundUpProps(|env.target|, env.page);
    Arith.Split(env.CacheSize(), env.page);
    Arith.Below(o, env.Pages(), env.page);
    Arith.Step(k, env.Pages(), env.page);
  }

  /** The state after a failed read: the transfer failed, the page left is in the window. */
  lemma AfterFailedRead(env: Env, s: State, a: Action)
    requires Inv(env, s) && Enabled(env, s, a) && Switches(a) && WriteOk(s, a)
    requires ReadFails(s.bmp, PIndex(env, s.readers[a.r].x), a.w, a.rd)
    ensures var s1 := Apply(env, s, a); var p := PIndex(env, s.readers[a.r].x);
      && WellFormed(env, s1) && !s1.panicked && s1.cache == s.cache
      && a.r in s1.readers && s1.readers[a.r].Failed?
      && s1.bmp.idx == s.bmp.idx && s1.bmp.buf == LeftPage(s.bmp, p, a.rd)
  {
    UnionKept(env, s, a);
    PageNumber(env, s.readers[a.r].x);
    BitsAfterSwitch(env, s.bmp, s.cache, PIndex(env, s.readers[a.r].x), a.w, a.rd);
  }

  lemma TestsWindow(env: Env, s: State, r: nat, x: Xfer, b: nat)
    requires WellFormed(env, s) && !s.panicked && r in s.readers && s.readers[r] == Looping(x) && 0 < x.left
    requires PIndex(env, x) == s.bmp.idx && BitNo(env, x) == b < env.Bits() && s.bmp.buf[b]
    ensures var a := TestStep(r, Written, Loaded);
      Enabled(env, s, a) && Benign(env, s, a)
      && Apply(env, s, a) == s.(readers := s.readers[r := Looping(Advance(env, x))])
  {
  }

  lemma Finishes(env: Env, s: State, r: nat, x: Xfer) returns (s': State)
    requires WellFormed(env, s) && !s.panicked && r in s.readers && s.readers[r] == Looping(x) && x.left <= 0
    ensures Run(env, s, [Finish(r)], s', true) && s'.cache == s.cache
    ensures r in s'.readers && s'.readers[r] == Done(x)
  {
    s' := Apply(env, s, Finish(r));
    Prepend(env, s, Finish(r), s', [], s', true);
    assert [Finish(r)] + [] == [Finish(r)];
  }

  lemma TestsAndFinishes(env: Env, s: State, r: nat, x: Xfer, b: nat) returns (acts: seq<Action>, s': State)
    requires WellFormed(env, s) && !s.panicked && r in s.readers && s.readers[r] == Looping(x)
    requires 0 < x.left <= env.page
    requires PIndex(env, x) == s.bmp.idx && BitNo(env, x) == b < env.Bits() && s.bmp.buf[b]
    ensures Run(env, s, acts, s', true) && s'.cache == s.cache
    ensures r in s'.readers && s'.readers[r] == Done(Advance(env, x))
  {
    var a := TestStep(r, Written, Loaded);
    TestsWindow(env, s, r, x, b);
    var s1 := s.(readers := s.readers[r := Looping(Advance(env, x))]);
    s' := Finishes(env, s1, r, Advance(env, x));
    Prepend(env, s, a, s1, [Finish(r)], s', true);
    acts := [a] + [Finish(r)];
  }

  lemma Starts(env: Env, s: State, r: nat, pos: nat, size: nat)
    requires WellFormed(env, s) && !s.panicked && r in s.readers && s.readers[r].Failed? && pos + size <= env.CacheSize()
    ensures var a := Start(r, pos, size);
      Enabled(env, s, a) && Benign(env, s, a)
      && Apply(env, s, a) == s.(readers := s.readers[r := Looping(Xfer(pos, size, pos, size))])
      && WellFormed(env, Apply(env, s, a))
  {
  }

  /** In any state, a transfer of the page that bit b of the window stands for
      needs no daemon when the bit is set. */
  lemma ReadsWindow(env: Env, s: State, r: nat, b: nat, o: nat)
    requires WellFormed(env, s) && !s.panicked && r in s.readers && s.readers[r].Failed?
    requires b < env.Bits() && s.bmp.buf[b]
    requires var k := s.bmp.idx * env.Bits() + b; k * env.page <= o < k * env.page + env.page <= env.CacheSize()
    requires o < |env.target| && !(o < |s.cache| && s.cache[o] == env.target[o])
    ensures exists acts: seq<Action>, s': State :: GoesWrong(env, s, acts, s', true, r, o)
  {
    var k := s.bmp.idx * env.Bits() + b;
    var pos := k * env.page;
    var x := Xfer(pos, env.page, pos, env.page);
    WindowPage(env, s.bmp.idx, b);
    var a := Start(r, pos, env.page);
    Starts(env, s, r, pos, env.page);
    var s1 := s.(readers := s.readers[r := Looping(x)]);
    var acts, s' := TestsAndFinishes(env, s1, r, x, b);
    Prepend(env, s, a, s1, acts, s', true);
    WrongAt(env, s', r, pos, o);
    assert GoesWrong(env, s, [a] + acts, s', true, r, o);
  }

  lemma WrongAt(env: Env, s: State, r: nat, pos: nat, o: nat)
    requires env.Ok() && pos % env.page == 0 && pos <= o < pos + env.page && o < |env.target|
    requires r in s.readers && s.readers[r] == Done(Advance(env, Xfer(pos, env.page, pos, env.page)))
    requires !(o < |s.cache| && s.cache[o] == env.target[o])
    ensures Wrong(env, s, r, o)
  {
    AlignedIsCovered(env.page, pos, env.page);
  }

  lemma WindowPage(env: Env, idx: nat, b: nat)
    requires env.Ok() && b < env.Bits()
    ensures var pos := (idx * env.Bits() + b) * env.page; var x := Xfer(pos, env.page, pos, env.page);
      pos % env.page == 0 && PIndex(env, x) == idx && BitNo(env, x) == b
  {
    Arith.Compose(idx * env.Bits() + b, 0, env.page);
    Arith.Compose(idx, b, env.Bits());
  }

  /** Every bit that lies leads to wrong data: some benign continuation ends with
      an aligned transfer of one page that returned zero. */
  lemma LieIsRead(env: Env, s: State, a: Action, b: nat)
    requires Inv(env, s) && Enabled(env, s, a) && Switches(a) && WriteOk(s, a)
    requires var p := PIndex(env, s.readers[a.r].x);
      ReadFails(s.bmp, p, a.w, a.rd) && Lies(env, s.cache, LeftPage(s.bmp, p, a.rd), s.bmp.idx, b)
    ensures exists acts: seq<Action>, s': State, o: nat :: GoesWrong(env, Apply(env, s, a), acts, s', true, a.r, o)
  {
    AfterFailedRead(env, s, a);
    var o := UnfilledPage(env, s.cache, s.bmp.idx * env.Bits() + b);
    ReadsWindow(env, Apply(env, s, a), a.r, b, o);
  }

  /** A failed read of the bitmap is safe exactly when the page that it leaves in
      the window does not lie: only then can no benign run from there end with a
      covered transfer that returned wrong data. */
  lemma ReadSafeExact(env: Env, s: State, a: Action)
    requires Inv(env, s) && Enabled(env, s, a) && Switches(a) && WriteOk(s, a)
    ensures ReadSafe(env, s.bmp, s.cache, PIndex(env, s.readers[a.r].x), a.w, a.rd) <==>
      !exists acts: seq<Action>, s': State, r: nat, o: nat :: GoesWrong(env, Apply(env, s, a), acts, s', true, r, o)
  {
    var p := PIndex(env, s.readers[a.r].x);
    if ReadSafe(env, s.bmp, s.cache, p, a.w, a.rd) {
      InvKept(env, s, a);
      forall acts: seq<Action>, s': State, r: nat, o: nat | Run(env, Apply(env, s, a), acts, s', true)
        ensures !GoesWrong(env, Apply(env, s, a), acts, s', true, r, o)
      {
        RunSafe(env, Apply(env, s, a), acts, s');
        NeverWrong(env, s', r, o);
      }
    } else {
      var b: nat :| Lies(env, s.cache, LeftPage(s.bmp, p, a.rd), s.bmp.idx, b);
      LieIsRead(env, s, a, b);
    }
  }

  /** With a bitmap of at least one bit per page, no step trips BUG_ON. */
  lemma NoPanic(env: Env, s: State, a: Action)
    requires Inv(env, s) && Enabled(env, s, a)
    requires env.Pages() <= |s.bmp.file| * env.Bits()
    ensures !Apply(env, s, a).panicked
  {
    if a.TestStep? || a.MarkStep? {
      var x := s.readers[a.r].x;
      assert ReaderOk(env, s.cache, s.elems, s.readers[a.r]);
      InBitmap(env, s.bmp, s.cache, x);
      SwitchKeepsFlat(s.bmp, env.Bits(), PIndex(env, x), a.w, a.rd);
    }
  }

  /** The bitmap file that ulo_init makes keeps every step from BUG_ON when
      SizingOk holds ... */
  lemma SizedBitmap(env: Env, s: State, a: Action)
    requires Inv(env, s) && Enabled(env, s, a)
    requires |s.bmp.file| == env.BitmapPages()
    requires UloopDaemon.SizingOk(env.Pages(), env.page)
    ensures !Apply(env, s, a).panicked
  {
    var sz := UloopDaemon.BitmapSize(env.CacheSize(), env.page);
    UloopDaemon.SizingExact(env.CacheSize(), env.page);
    Arith.EightTimes(sz, env.page);
    NoPanic(env, s, a);
  }

  /** ... and only then. */
  lemma TooSmallPanics(env: Env, s0: State)
    requires Init(env, s0)
    requires |s0.bmp.file| == env.BitmapPages()
    requires !UloopDaemon.SizingOk(env.Pages(), env.page)
    ensures exists acts: seq<Action>, s: State :: Run(env, s0, acts, s, true) && s.panicked
  {
    InitInv(env, s0);
    var k := env.Pages() - 1;
    UloopDaemon.RoundUpProps(|env.target|, env.page);
    Arith.Split(env.CacheSize(), env.page);
    Arith.Step(k, k + 1, env.page);
    Arith.Compose(k, 0, env.page);
    UloopDaemon.SplitInFile(env.CacheSize(), env.page, k);
    var a := Start(0, k * env.page, env.page);
    InvKept(env, s0, a);
    var s1 := Apply(env, s0, a);
    SwitchKeepsFlat(s1.bmp, env.Bits(), PIndex(env, s1.readers[0].x), Written, Loaded);
    var b := TestStep(0, Written, Loaded);
    var s2 := Apply(env, s1, b);
    Prepend(env, s1, b, s2, [], s2, true);
    Prepend(env, s0, a, s1, [b] + [], s2, true);
  }

  lemma InBitmap(env: Env, bmp: Store, cache: seq<Byte>, x: Xfer)
    requires env.Ok() && XferOk(env, cache, x) && 0 < x.left
    requires env.Pages() <= |bmp.file| * env.Bits()
    ensures PIndex(env, x) < |bmp.file|
  {
    UloopDaemon.RoundUpProps(|env.target|, env.page);
    Arith.Split(env.CacheSize(), env.page);
    Arith.Below(x.pos, env.Pages(), env.page);
    Arith.Below(x.pos / env.page, |bmp.file|, env.Bits());
  }

  // ---- the two conditions are needed

  /** Just the second page of the bitmap is set. */
  function HarmFile(bits: nat, n: nat): (file: seq<Page>)
    ensures |file| == n
    ensures forall p :: 0 <= p < n ==> |file[p]| == bits && forall b :: 0 <= b < bits ==> file[p][b] == (p == 1)
  {
    seq(n, p => seq(bits, b => p == 1))
  }

  /** Just the pages of the cache that it stands for are filled. */
  function HarmCache(env: Env): (cache: seq<Byte>)
    requires env.Ok()
    ensures |cache| == env.CacheSize()
    ensures forall o :: 0 <= o < |env.target| && o < |cache| ==>
      (cache[o] == env.target[o] <==> env.Bits() <= o / env.page < 2 * env.Bits())
  {
    seq(env.CacheSize(), o requires 0 <= o =>
      if |env.target| <= o then 0
      else if env.Bits() <= o / env.page < 2 * env.Bits() then env.target[o]
      else if env.target[o] == 0 then 1 else 0)
  }

  function HarmState(env: Env, n: nat, readers: map<nat, Reader>): State
    requires env.Ok() && 0 < n
  {
    var file := HarmFile(env.Bits(), n);
    State(Store(file, 0, file[0]), [], [], [], map[], readers, map[], HarmCache(env), false)
  }

  lemma HarmInit(env: Env, n: nat)
    requires env.Ok() && 3 <= n
    ensures Init(env, HarmState(env, n, map[]))
  {
    var s := HarmState(env, n, map[]);
    UloopDaemon.RoundUpProps(|env.target|, env.page);
    forall p, b | 0 <= p < n && 0 <= b < env.Bits() && s.bmp.file[p][b]
      ensures Filled(env, s.cache, p * env.Bits() + b)
    {
      assert p * env.Bits() == env.Bits();
    }
  }

  /** The transfer of the first page that the third bitmap page stands for. */
  function HarmXfer(env: Env): Xfer {
    var pos := (2 * env.Bits() + 0) * env.page;
    Xfer(pos, env.page, pos, env.page)
  }

  /** It wants page 2 of the bitmap, the read fails, and page 1 is put back where
      page 0 was: its first bit lies. */
  lemma HarmFirst(env: Env, n: nat)
    requires env.Ok() && 3 <= n && HarmXfer(env).pos < |env.target|
    ensures var x := HarmXfer(env); var s := HarmState(env, n, map[0 := Looping(x)]);
      && StepTo(env, HarmState(env, n, map[]), Start(0, x.pos0, x.size), s)
      && WellFormed(env, s) && Enabled(env, s, TestStep(0, Written, Restored))
      && PIndex(env, x) == 2 && ReadFails(s.bmp, 2, Written, Restored)
      && Lies(env, s.cache, LeftPage(s.bmp, 2, Restored), 0, 0)
  {
    var x := HarmXfer(env);
    var s := HarmState(env, n, map[0 := Looping(x)]);
    HarmInit(env, n);
    WindowPage(env, 2, 0);
    PageInCache(env, x.pos);
    assert LeftPage(s.bmp, 2, Restored) == s.bmp.file[1];
    assert 0 / env.page == 0 && s.cache[0] != env.target[0];
  }

  /** A page that begins inside the target lies inside the cache. */
  lemma PageInCache(env: Env, pos: nat)
    requires env.Ok() && pos < |env.target| && pos % env.page == 0
    ensures pos + env.page <= env.CacheSize()
  {
    UloopDaemon.RoundUpProps(|env.target|, env.page);
    Arith.Split(pos, env.page);
    Arith.Split(env.CacheSize(), env.page);
    Arith.Below(pos, env.Pages(), env.page);
    Arith.Step(pos / env.page, env.Pages(), env.page);
  }

  lemma {:induction false} AnyRun(env: Env, s: State, acts: seq<Action>, s': State)
    requires Run(env, s, acts, s', true)
    ensures Run(env, s, acts, s', false)
    decreases |acts|
  {
    if acts != [] { AnyRun(env, Apply(env, s, acts[0]), acts[1..], s'); }
  }

  lemma LieRun(env: Env, s: State, a: Action, b: nat) returns (acts: seq<Action>, s': State, o: nat)
    requires Inv(env, s) && Enabled(env, s, a) && Switches(a) && WriteOk(s, a)
    requires var p := PIndex(env, s.readers[a.r].x);
      ReadFails(s.bmp, p, a.w, a.rd) && Lies(env, s.cache, LeftPage(s.bmp, p, a.rd), s.bmp.idx, b)
    ensures GoesWrong(env, s, acts, s', false, a.r, o)
  {
    LieIsRead(env, s, a, b);
    var s1 := Apply(env, s, a);
    acts, s', o :| GoesWrong(env, s1, acts, s', true, a.r, o);
    AnyRun(env, s1, acts, s');
    Prepend(env, s, a, s1, acts, s', false);
    acts := [a] + acts;
  }

  lemma LieReached(env: Env, s0: State, a0: Action, s1: State, a: Action, b: nat)
      returns (acts: seq<Action>, s: State, o: nat)
    requires Init(env, s0) && StepTo(env, s0, a0, s1) && Benign(env, s0, a0)
    requires WellFormed(env, s1) && Enabled(env, s1, a) && Switches(a) && WriteOk(s1, a)
    requires var p := PIndex(env, s1.readers[a.r].x);
      ReadFails(s1.bmp, p, a.w, a.rd) && Lies(env, s1.cache, LeftPage(s1.bmp, p, a.rd), s1.bmp.idx, b)
    ensures GoesWrong(env, s0, acts, s, false, a.r, o)
  {
    InitInv(env, s0);
    InvKept(env, s0, a0);
    acts, s, o := LieRun(env, s1, a, b);
    Prepend(env, s0, a0, s1, acts, s, false);
    acts := [a0] + acts;
  }

  /** Such a state is reached, for every page size, every target that needs a third
      page of bits, and every bitmap that has one: from a fresh device a transfer can
      return zero with wrong data, for the put-back page lends its bits to pages
      never filled. */
  lemma HarmfulRestore(env: Env, n: nat)
    requires env.Ok() && 3 <= n && 2 * env.Bits() * env.page < |env.target|
    ensures exists s0: State, acts: seq<Action>, s: State, o: nat ::
      Init(env, s0) && |s0.bmp.file| == n && GoesWrong(env, s0, acts, s, false, 0, o)
  {
    var x := HarmXfer(env);
    HarmInit(env, n);
    HarmFirst(env, n);
    var s0 := HarmState(env, n, map[]);
    var acts, s, o := LieReached(env, s0, Start(0, x.pos0, x.size),
      HarmState(env, n, map[0 := Looping(x)]), TestStep(0, Written, Restored), 0);
    assert Init(env, s0) && |s0.bmp.file| == n && GoesWrong(env, s0, acts, s, false, 0, o);
  }

  ghost predicate IsSet(flat: seq<Page>, p: nat, b: nat) {
    p < |flat| && b < |flat[p]| && flat[p][b]
  }

  /** The pages below `k` are marked in the logical bitmap. */
  ghost predicate AllSet(bits: nat, flat: seq<Page>, k: nat) {
    forall p: nat, b: nat {:trigger IsSet(flat, p, b)} :: b < bits && p * bits + b < k ==> IsSet(flat, p, b)
  }

  lemma MarkedIsSeen(env: Env, bmp: Store, x: Xfer, k: nat)
    requires env.Ok() && Valid(bmp, env.Bits()) && AllSet(env.Bits(), Flat(bmp), k) && x.pos / env.page < k
    ensures var (bmp', rc, isSet) := Exec(bmp, Test(PIndex(env, x), BitNo(env, x), Written, Loaded));
      rc == Ok && isSet && Valid(bmp', env.Bits()) && Flat(bmp') == Flat(bmp)
  {
    var p, b := PIndex(env, x), BitNo(env, x);
    PageNumber(env, x);
    assert IsSet(Flat(bmp), p, b);
    ExecRefines(bmp, env.Bits(), Test(p, b, Written, Loaded));
    SwitchKeepsFlat(bmp, env.Bits(), p, Written, Loaded);
  }

  /** The test of a marked page succeeds and takes the transfer one page on. */
  lemma TestMarked(env: Env, s: State, r: nat, k: nat)
    requires WellFormed(env, s) && !s.panicked && AllSet(env.Bits(), Flat(s.bmp), k)
    requires r in s.readers && s.readers[r].Looping? && 0 < s.readers[r].x.left
    requires s.readers[r].x.pos / env.page < k
    ensures var a := TestStep(r, Written, Loaded);
      && Enabled(env, s, a) && Benign(env, s, a)
      && var s1 := Apply(env, s, a);
         !s1.panicked && Valid(s1.bmp, env.Bits()) && Flat(s1.bmp) == Flat(s.bmp) && s1.cache == s.cache
         && s1.readers == s.readers[r := Looping(Advance(env, s.readers[r].x))]
  {
    MarkedIsSeen(env, s.bmp, s.readers[r].x, k);
  }

  lemma LeftShrinks(env: Env, x: Xfer, k: nat)
    requires env.Ok() && 0 < x.left <= (k - x.pos / env.page) * env.page
    ensures x.pos / env.page < k
    ensures var x' := Advance(env, x); x'.left <= (k - x'.pos / env.page) * env.page
  {
    Arith.Step(k, x.pos / env.page, env.page);
    Arith.NextQuotient(x.pos, env.page);
    assert (k - (x.pos / env.page + 1)) * env.page == (k - x.pos / env.page) * env.page - env.page;
  }

  lemma TestsOne(env: Env, s: State, r: nat, k: nat) returns (s1: State)
    requires Inv(env, s) && !s.panicked && AllSet(env.Bits(), Flat(s.bmp), k)
    requires r in s.readers && s.readers[r].Looping?
    requires 0 < s.readers[r].x.left <= (k - s.readers[r].x.pos / env.page) * env.page
    ensures var a := TestStep(r, Written, Loaded); StepTo(env, s, a, s1) && Benign(env, s, a)
    ensures Inv(env, s1) && !s1.panicked && Flat(s1.bmp) == Flat(s.bmp) && s1.cache == s.cache
    ensures r in s1.readers && s1.readers[r] == Looping(Advance(env, s.readers[r].x))
    ensures s1.readers[r].x.left <= (k - s1.readers[r].x.pos / env.page) * env.page
  {
    LeftShrinks(env, s.readers[r].x, k);
    TestMarked(env, s, r, k);
    InvKept(env, s, TestStep(r, Written, Loaded));
    s1 := Apply(env, s, TestStep(r, Written, Loaded));
  }

  /** A transfer whose remaining pages are all marked needs no daemon. */
  lemma {:induction false} RunsThrough(env: Env, s: State, r: nat, k: nat) returns (acts: seq<Action>, s': State)
    requires Inv(env, s) && !s.panicked && AllSet(env.Bits(), Flat(s.bmp), k)
    requires r in s.readers && s.readers[r].Looping?
    requires s.readers[r].x.left <= (k - s.readers[r].x.pos / env.page) * env.page
    ensures Run(env, s, acts, s', true) && s'.cache == s.cache
    ensures r in s'.readers && s'.readers[r].Done?
    ensures s'.readers[r].x.pos0 == s.readers[r].x.pos0 && s'.readers[r].x.size == s.readers[r].x.size
    decreases s.readers[r].x.left
  {
    var x := s.readers[r].x;
    if x.left <= 0 {
      s' := Apply(env, s, Finish(r));
      Prepend(env, s, Finish(r), s', [], s', true);
      acts := [Finish(r)] + [];
    } else {
      var a := TestStep(r, Written, Loaded);
      var s1 := TestsOne(env, s, r, k);
      acts, s' := RunsThrough(env, s1, r, k);
      Prepend(env, s, a, s1, acts, s', true);
      acts := [a] + acts;
    }
  }

  function PartFile(bits: nat, k: nat): (file: seq<Page>)
    requires 0 < bits
    ensures |file| == k / bits + 1
    ensures forall p :: 0 <= p < |file| ==> |file[p]| == bits && forall b :: 0 <= b < bits ==> file[p][b] == (p * bits + b < k)
  {
    seq(k / bits + 1, p => seq(bits, b => p * bits + b < k))
  }

  function PartCache(env: Env, k: nat): (cache: seq<Byte>)
    requires env.Ok()
    ensures |cache| == env.CacheSize()
    ensures forall o :: 0 <= o < |env.target| && o < |cache| ==> (cache[o] == env.target[o] <==> o / env.page < k)
  {
    seq(env.CacheSize(), o requires 0 <= o =>
      if |env.target| <= o then 0 else if o / env.page < k then env.target[o] else if env.target[o] == 0 then 1 else 0)
  }

  /** A device on which just the pages below `k` are filled and marked. */
  function PartState(env: Env, k: nat): State
    requires env.Ok()
  {
    var file := PartFile(env.Bits(), k);
    State(Store(file, 0, file[0]), [], [], [], map[], map[], map[], PartCache(env, k), false)
  }

  lemma PartSet(env: Env, k: nat)
    requires env.Ok()
    ensures Valid(PartState(env, k).bmp, env.Bits())
    ensures AllSet(env.Bits(), Flat(PartState(env, k).bmp), k)
  {
    var bits := env.Bits();
    var file := PartFile(bits, k);
    assert Flat(PartState(env, k).bmp) == file;
    forall p: nat, b: nat | b < bits && p * bits + b < k ensures IsSet(file, p, b) {
      Arith.Compose(p, b, bits);
      Arith.Monotone(p * bits + b, k, bits);
    }
  }

  lemma PartInit(env: Env, k: nat)
    requires env.Ok()
    ensures Init(env, PartState(env, k))
  {
    var s := PartState(env, k);
    PartSet(env, k);
    UloopDaemon.RoundUpProps(|env.target|, env.page);
    forall i: int | i < k ensures Filled(env, s.cache, i) {
    }
  }

  /** Transfer 0 of the bytes asked for returned zero, with a wrong one among them. */
  ghost predicate Stale(env: Env, s: State, pos: nat, size: nat, o: nat) {
    && 0 in s.readers && s.readers[0].Done? && s.readers[0].x.pos0 == pos && s.readers[0].x.size == size
    && pos <= o < pos + size <= |s.cache| && o < |env.target| && s.cache[o] != env.target[o]
  }

  /** Any transfer within the device that is not covered can return zero with a
      wrong byte, the first one of the page that its loop does not reach. */
  lemma UncoveredFails(env: Env, pos: nat, size: nat)
    requires env.Ok() && pos + size <= env.CacheSize() && !Covered(env.page, pos, size)
    ensures exists s0: State, acts: seq<Action>, s: State, o: nat ::
              Init(env, s0) && Run(env, s0, acts, s, true) && Stale(env, s, pos, size, o)
  {
    var k := (pos + UloopDaemon.RoundUp(size, env.page)) / env.page;
    var o := k * env.page;
    MissedPage(env, pos, size);
    var s0 := PartState(env, k);
    PartInit(env, k);
    PartSet(env, k);
    InitInv(env, s0);
    UloopDaemon.RoundUpProps(size, env.page);
    EndFacts(env.page, pos, size);
    var a := Start(0, pos, size);
    var s1 := Apply(env, s0, a);
    InvKept(env, s0, a);
    var acts, s := RunsThrough(env, s1, 0, k);
    Prepend(env, s0, a, s1, acts, s, true);
    assert Stale(env, s, pos, size, o);
  }

  /** The first byte of the page behind the loop is asked for, and there is one. */
  lemma MissedPage(env: Env, pos: nat, size: nat)
    requires env.Ok() && pos + size <= env.CacheSize() && !Covered(env.page, pos, size)
    ensures var k := (pos + UloopDaemon.RoundUp(size, env.page)) / env.page;
      && pos <= k * env.page < pos + size && k * env.page < |env.target| && k * env.page / env.page == k
  {
    var end := pos + UloopDaemon.RoundUp(size, env.page);
    UloopDaemon.RoundUpProps(size, env.page);
    EndFacts(env.page, pos, size);
    Arith.Compose(end / env.page, 0, env.page);
    Arith.Split(pos, env.page);
    Arith.Split(end, env.page);
    Arith.AtLeastOne(UloopDaemon.RoundUp(size, env.page), env.page);
    Arith.StartsIn(end / env.page, pos + size - 1, env.page);
    PageInTarget(env, pos + size - 1);
    Arith.Step(end / env.page, (pos + size - 1) / env.page, env.page);
  }

  /** The last page of the cache begins inside the target. */
  lemma PageInTarget(env: Env, o: nat)
    requires env.Ok() && o < env.CacheSize()
    ensures o / env.page * env.page < |env.target|
  {
    var c := env.CacheSize();
    UloopDaemon.RoundUpProps(|env.target|, env.page);
    Arith.Split(c, env.page);
    Arith.Below(o, c / env.page, env.page);
    Arith.Step(o / env.page, c / env.page, env.page);
  }

  lemma EndFacts(page: nat, pos: nat, size: nat)
    requires 0 < page && 0 < size
    ensures var end := pos + UloopDaemon.RoundUp(size, page);
            end % page == pos % page && end - pos == (end / page - pos / page) * page && pos / page <= end / page
            && (!Covered(page, pos, size) ==> end / page <= (pos + size - 1) / page)
  {
    var r := UloopDaemon.RoundUp(size, page);
    UloopDaemon.RoundUpProps(size, page);
    Arith.Split(pos, page);
    Arith.Split(r, page);
    assert pos + r == (pos / page + r / page) * page + pos % page;
    Arith.Compose(pos / page + r / page, pos % page, page);
    LoopPages(page, pos, size, pos + r);
  }
}
