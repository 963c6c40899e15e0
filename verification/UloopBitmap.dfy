/**
  The bitmap of the ULOOP driver: a file of pages, seen through one page
  (`bmpbuf`, the page number `bmpidx`) that is written back when another page
  is needed. The module shows that file and window together behave as one flat
  bitmap, for every outcome of the I/O except one family of failed reads, which
  is characterised exactly.
  */
module UloopBitmap {

  type Page = seq<bool>

  /** `file` is the bitmap file, `buf` the window and `idx` the page it stands for. */
  datatype Store = Store(file: seq<Page>, idx: nat, buf: Page)

  ghost predicate Valid(s: Store, bits: nat) {
    && s.idx < |s.file|
    && |s.buf| == bits
    && forall p :: 0 <= p < |s.file| ==> |s.file[p]| == bits
  }

  /** The bitmap a caller sees: the window hides the page it stands for. */
  function Flat(s: Store): seq<Page>
    requires s.idx < |s.file|
  {
    s.file[s.idx := s.buf]
  }

  /** A write of the window: complete, or failed with `left` on the disk. */
  datatype WriteIo = Written | Torn(left: Page)

  /** A read of the wanted page: complete; failed, with the page before the
      wanted one read instead; or failed twice, with `junk` in the buffer. */
  datatype ReadIo = Loaded | Restored | Lost(junk: Page)

  /** Bug stands for BUG_ON, which halts the kernel. */
  datatype Rc = Ok | Err | Bug

  ghost predicate IoShape(bits: nat, pindex: nat, w: WriteIo, r: ReadIo) {
    && (w.Torn? ==> |w.left| == bits)
    && (r.Lost? ==> |r.junk| == bits)
    && (r.Restored? ==> 0 < pindex)  // a read at a negative offset cannot succeed
  }

  function SwitchTo(s: Store, pindex: nat, w: WriteIo, r: ReadIo): (Store, Rc)
    requires s.idx < |s.file|
    requires r.Restored? ==> 0 < pindex
  {
    if s.idx == pindex then (s, Ok)
    else if |s.file| < pindex then (s, Err)
    else if w.Torn? then (s.(file := s.file[s.idx := w.left]), Err)
    else
      var file := s.file[s.idx := s.buf];
      if |file| < pindex + 1 then (s.(file := file), Bug)
      else match r
        case Loaded => (Store(file, pindex, file[pindex]), Ok)
        case Restored => (Store(file, s.idx, file[pindex - 1]), Err)
        case Lost(junk) => (Store(file, s.idx, junk), Err)
  }

  /** What a caller can know beforehand about a page switch that is harmless
      whatever else happens: it needs no read, or the read works, or the page
      that is put back is the page the window stood for. */
  ghost predicate Harmless(s: Store, pindex: nat, w: WriteIo, r: ReadIo)
    requires s.idx < |s.file|
  {
    || pindex == s.idx || |s.file| <= pindex || w.Torn? || r.Loaded?
    || (r.Restored? && 0 < pindex && (s.idx + 1 == pindex || s.file[pindex - 1] == s.buf))
    || (r.Lost? && r.junk == s.buf)
  }

  /** A page switch changes the logical bitmap exactly when it is not harmless. */
  lemma SwitchKeepsFlat(s: Store, bits: nat, pindex: nat, w: WriteIo, r: ReadIo)
    requires Valid(s, bits) && IoShape(bits, pindex, w, r)
    ensures var (s', rc) := SwitchTo(s, pindex, w, r);
            && Valid(s', bits) && |s'.file| == |s.file|
            && (Flat(s') == Flat(s) <==> Harmless(s, pindex, w, r))
            && (rc == Ok ==> s'.idx == pindex)
            && (rc == Bug <==> pindex == |s.file| && w.Written?)
  {
    var (s', rc) := SwitchTo(s, pindex, w, r);
    assert Flat(s)[s.idx] == s.buf && Flat(s')[s'.idx] == s'.buf;
    if Harmless(s, pindex, w, r) {
      assert Flat(s') == Flat(s);
    } else {
      assert Flat(s')[s.idx] != Flat(s)[s.idx];
    }
  }

  /** After a complete write the disk holds the whole logical bitmap, whatever the
      read does; after a failed one it holds what that left; no other page is touched. */
  lemma OnDisk(s: Store, bits: nat, pindex: nat, w: WriteIo, r: ReadIo)
    requires Valid(s, bits) && IoShape(bits, pindex, w, r)
    ensures SwitchTo(s, pindex, w, r).0.file ==
      if pindex == s.idx || |s.file| < pindex then s.file
      else if w.Written? then Flat(s) else s.file[s.idx := w.left]
  {
  }

  /** The failed read that does harm: three pages, the window on the first,
      the last one wanted; the second is put back in place of the first. */
  lemma RestoreTakesWrongPage()
    ensures exists s: Store, pindex: nat ::
              && Valid(s, 1)
              && IoShape(1, pindex, Written, Restored)
              && !Harmless(s, pindex, Written, Restored)
              && Flat(SwitchTo(s, pindex, Written, Restored).0) != Flat(s)
  {
    var s := Store([[false], [true], [false]], 0, [false]);
    assert Valid(s, 1);
    var s' := SwitchTo(s, 2, Written, Restored).0;
    assert Flat(s)[0] == [false] && Flat(s')[0] == [true];
  }

  /** One use of the bitmap under its mutex, or a release of the device, whose
      write-back may fail unnoticed, followed by a new setbmp on the same file. */
  datatype Op =
    | Test(p: nat, b: nat, w: WriteIo, r: ReadIo)
    | Mark(p: nat, b: nat, w: WriteIo, r: ReadIo)
    | Reopen(w: WriteIo)

  /** `isSet` is the answer of Test; it stays true when the switch failed. */
  function Exec(s: Store, op: Op): (res: (Store, Rc, bool))
    requires s.idx < |s.file|
    requires !op.Reopen? && op.r.Restored? ==> 0 < op.p
  {
    match op
    case Test(p, b, w, r) =>
      var (s', rc) := SwitchTo(s, p, w, r);
      (s', rc, rc != Ok || (b < |s'.buf| && s'.buf[b]))
    case Mark(p, b, w, r) =>
      var (s', rc) := SwitchTo(s, p, w, r);
      (if rc == Ok && b < |s'.buf| then s'.(buf := s'.buf[b := true]) else s', rc, true)
    case Reopen(w) =>
      var file := s.file[s.idx := if w.Written? then s.buf else w.left];
      (Store(file, 0, file[0]), Ok, true)
  }

  ghost predicate OpShape(bits: nat, op: Op) {
    if op.Reopen? then op.w.Torn? ==> |op.w.left| == bits
    else op.b < bits && IoShape(bits, op.p, op.w, op.r)
  }

  /** What can be known beforehand of an operation that spoils no bit. */
  ghost predicate Spares(s: Store, op: Op)
    requires s.idx < |s.file|
  {
    if op.Reopen? then op.w.Written? || op.w.left == s.buf else Harmless(s, op.p, op.w, op.r)
  }

  ghost predicate OpOk(s: Store, bits: nat, op: Op)
    requires s.idx < |s.file|
  {
    OpShape(bits, op) && Spares(s, op)
  }

  /** The flat bitmap's own transition, blind to the window. */
  function FlatExec(f: seq<Page>, op: Op, rc: Rc): seq<Page> {
    if op.Mark? && rc == Ok && op.p < |f| && op.b < |f[op.p]|
    then f[op.p := f[op.p][op.b := true]]
    else f
  }

  /** Every operation acts on the flat bitmap as it should if and only if it
      spares the other bits; its answer is right in any case. */
  lemma ExecRefines(s: Store, bits: nat, op: Op)
    requires Valid(s, bits) && OpShape(bits, op)
    ensures var (s', rc, isSet) := Exec(s, op);
            && Valid(s', bits) && |s'.file| == |s.file|
            && (Flat(s') == FlatExec(Flat(s), op, rc) <==> Spares(s, op))
            && (rc == Ok && !op.Reopen? ==> op.p < |s.file|)
            && (op.Test? && rc == Ok ==> (isSet <==> Flat(s)[op.p][op.b]))
            && (op.Test? && rc != Ok ==> isSet)
  {
    match op
    case Test(p, b, w, r) => SwitchKeepsFlat(s, bits, p, w, r);
    case Mark(p, b, w, r) =>
      SwitchKeepsFlat(s, bits, p, w, r);
      var (s1, rc) := SwitchTo(s, p, w, r);
      var s' := Exec(s, op).0;
      if rc == Ok {
        assert Flat(s1)[p] == s1.buf;
        assert Flat(s') == Flat(s1)[p := s'.buf];
      }
    case Reopen(w) =>
      assert Flat(Exec(s, op).0)[s.idx] == if w.Written? then s.buf else w.left;
      assert Spares(s, op) ==> Flat(Exec(s, op).0) == Flat(s);
  }

  /** All operations of a run succeed or fail harmlessly, each in its own state. */
  ghost predicate RunOk(s: Store, bits: nat, ops: seq<Op>)
    requires Valid(s, bits)
    decreases |ops|
  {
    ops == [] || (
      && OpOk(s, bits, ops[0])
      && (ExecRefines(s, bits, ops[0]); RunOk(Exec(s, ops[0]).0, bits, ops[1..])))
  }

  ghost function Run(s: Store, bits: nat, ops: seq<Op>): Store
    requires Valid(s, bits) && RunOk(s, bits, ops)
    decreases |ops|
  {
    if ops == [] then s
    else ExecRefines(s, bits, ops[0]); Run(Exec(s, ops[0]).0, bits, ops[1..])
  }

  /** A mark of bit (p, b) that reported success, somewhere in the run. */
  ghost predicate Marked(s: Store, bits: nat, ops: seq<Op>, p: nat, b: nat)
    requires Valid(s, bits) && RunOk(s, bits, ops)
    decreases |ops|
  {
    ops != [] && (
      || (ops[0].Mark? && ops[0].p == p && ops[0].b == b && Exec(s, ops[0]).1 == Ok)
      || (ExecRefines(s, bits, ops[0]); Marked(Exec(s, ops[0]).0, bits, ops[1..], p, b)))
  }

  /** Over every run, however often the window moves: a bit is set at the end
      exactly when it was set at the start or was marked in between. */
  lemma {:induction false} RunIsFlatBitmap(s: Store, bits: nat, ops: seq<Op>, p: nat, b: nat)
    requires Valid(s, bits) && RunOk(s, bits, ops)
    requires p < |s.file| && b < bits
    ensures Valid(Run(s, bits, ops), bits) && |Run(s, bits, ops).file| == |s.file|
    ensures Flat(Run(s, bits, ops))[p][b] <==> Flat(s)[p][b] || Marked(s, bits, ops, p, b)
    decreases |ops|
  {
    if ops != [] {
      ExecRefines(s, bits, ops[0]);
      RunIsFlatBitmap(Exec(s, ops[0]).0, bits, ops[1..], p, b);
    }
  }

  /** The device: its window is one buffer, overwritten in place. */
  class BitmapDev {
    const bits: nat
    var file: seq<Page>
    var idx: nat
    const buf: array<bool>

    ghost predicate Ready()
      reads this, buf
    {
      buf.Length == bits && Valid(Abs(), bits)
    }

    ghost function Abs(): Store
      reads this, buf
    {
      Store(file, idx, buf[..])
    }

    /** ULOCTL_SETBMP on a file of whole pages whose first page can be read. */
    constructor (bits: nat, file: seq<Page>)
      requires 0 < |file| && forall p :: 0 <= p < |file| ==> |file[p]| == bits
      ensures Ready() && fresh(buf) && this.bits == bits
      ensures Abs() == Store(file, 0, file[0])
    {
      this.bits := bits;
      this.file := file;
      idx := 0;
      buf := new bool[bits](i requires 0 <= i < bits => file[0][i]);
      new;
      assert buf[..] == file[0];
    }

    /** kernel_read of one page into the window. */
    method Load(page: Page)
      requires buf.Length == |page|
      modifies buf
      ensures buf[..] == page
    {
      for i := 0 to buf.Length
        invariant buf[..i] == page[..i]
      {
        buf[i] := page[i];
      }
    }

    method Pindex(pindex: nat, w: WriteIo, r: ReadIo) returns (rc: Rc)
      requires Ready() && IoShape(bits, pindex, w, r)
      modifies this`file, this`idx, buf
      ensures Ready()
      ensures (Abs(), rc) == SwitchTo(old(Abs()), pindex, w, r)
    {
      SwitchKeepsFlat(Abs(), bits, pindex, w, r);
      if idx == pindex {
        return Ok;
      }
      if |file| < pindex {
        return Err;
      }
      if w.Torn? {
        file := file[idx := w.left];
        return Err;
      }
      file := file[idx := buf[..]];
      if |file| < pindex + 1 {
        return Bug;
      }
      match r
      case Loaded =>
        Load(file[pindex]);
        idx := pindex;
        return Ok;
      case Restored =>
        Load(file[pindex - 1]);
        return Err;
      case Lost(junk) =>
        Load(junk);
        return Err;
    }

    /** The bitmap test of uloop_xfer. */
    method TestBit(p: nat, b: nat, w: WriteIo, r: ReadIo) returns (rc: Rc, isSet: bool)
      requires Ready() && b < bits && IoShape(bits, p, w, r)
      modifies this`file, this`idx, buf
      ensures Ready()
      ensures (Abs(), rc, isSet) == Exec(old(Abs()), Test(p, b, w, r))
    {
      isSet := true;
      rc := Pindex(p, w, r);
      if rc == Ok {
        isSet := buf[b];
      }
    }

    /** The bitmap update of ulo_xfer_end. */
    method MarkBit(p: nat, b: nat, w: WriteIo, r: ReadIo) returns (rc: Rc)
      requires Ready() && b < bits && IoShape(bits, p, w, r)
      modifies this`file, this`idx, buf
      ensures Ready()
      ensures (Abs(), rc) == (Exec(old(Abs()), Mark(p, b, w, r)).0, Exec(old(Abs()), Mark(p, b, w, r)).1)
    {
      rc := Pindex(p, w, r);
      if rc == Ok {
        buf[b] := true;
      }
    }

    /** uloop_release: the window is written back and the file is what remains. */
    method Release(w: WriteIo) returns (left: seq<Page>)
      requires Ready() && (w.Torn? ==> |w.left| == bits)
      modifies this`file
      ensures left == if w.Written? then Flat(old(Abs())) else old(file)[old(idx) := w.left]
    {
      file := file[idx := if w.Written? then buf[..] else w.left];
      left := file;
    }

    /** A release, and setbmp on what it left. */
    method Reopen(w: WriteIo) returns (d: BitmapDev)
      requires Ready() && (w.Torn? ==> |w.left| == bits)
      modifies this`file
      ensures d.Ready() && fresh(d) && fresh(d.buf) && d.bits == bits
      ensures d.Abs() == Exec(old(Abs()), Op.Reopen(w)).0
    {
      var left := Release(w);
      d := new BitmapDev(bits, left);
    }
  }
}
