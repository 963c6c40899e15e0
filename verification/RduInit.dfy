/**
  rdu_init: the kernel hands the records of all branches over in pieces, into
  a buffer that grows and may move, before rdu_merge filters them.
  */
module RduInit {
  import opened Basics
  import opened RduNames
  import opened RduCompact
  import opened RduMerge

  function Concat(records: seq<seq<Byte>>): seq<Byte> {
    if records == [] then [] else Concat(records[..|records| - 1]) + records[|records| - 1]
  }

  lemma {:induction false} ConcatSplit(a: seq<seq<Byte>>, b: seq<seq<Byte>>)
    ensures Concat(a + b) == Concat(a) + Concat(b)
  {
    if b == [] {
      assert a + b == a;
    } else {
      var n := |b| - 1;
      ConcatSplit(a, b[..n]);
      assert (a + b)[..|a + b| - 1] == a + b[..n];
    }
  }

  /** The buffer when s has been written at `at`. */
  function Overwrite(b: seq<Byte>, at: nat, s: seq<Byte>): (r: seq<Byte>)
    requires at + |s| <= |b|
    ensures |r| == |b|
  {
    b[..at] + s + b[at + |s|..]
  }

  lemma OverwriteTwice(b: seq<Byte>, at: nat, s: seq<Byte>, t: seq<Byte>)
    requires at + |s| + |t| <= |b|
    ensures Overwrite(Overwrite(b, at, s), at + |s|, t) == Overwrite(b, at, s + t)
  {
  }

  lemma OverwritePrefix(b: seq<Byte>, s: seq<Byte>, t: seq<Byte>)
    requires |s| + |t| <= |b| && b[..|s|] == s
    ensures Overwrite(b, |s|, t)[..|s| + |t|] == s + t
  {
  }

  /** The kernel's side of the AUFS_CTL_RDU ioctl: the records not yet returned. */
  class Kernel {
    var rest: seq<seq<Byte>>

    constructor (records: seq<seq<Byte>>)
      ensures rest == records
    {
      rest := records;
    }

    /** Any number of records that fit, at least one if the next one fits;
        `full` is reported just while records are left. */
    method GetEnt(buf: array<Byte>, off: nat, sz: nat) returns (rent: nat, used: nat, full: bool)
      requires off + sz <= buf.Length
      modifies this, buf
      ensures rent <= |old(rest)| && rest == old(rest)[rent..] && (full <==> rest != [])
      ensures used == |Concat(old(rest)[..rent])| <= sz
      ensures buf[..] == Overwrite(old(buf[..]), off, Concat(old(rest)[..rent]))
      ensures old(rest) != [] && |old(rest)[0]| <= sz ==> 0 < rent
    {
      rent, used := 0, 0;
      ghost var all, was := rest, buf[..];
      assert Overwrite(was, off, []) == was;
      while rest != [] && used + |rest[0]| <= sz
        invariant rent <= |all| && rest == all[rent..]
        invariant used == |Concat(all[..rent])| <= sz
        invariant buf[..] == Overwrite(was, off, Concat(all[..rent]))
        decreases |rest|
      {
        var more: bool := *;
        if 0 < rent && !more {
          break;
        }
        assert all[..rent + 1][..rent] == all[..rent];
        OverwriteTwice(was, off, Concat(all[..rent]), rest[0]);
        Write(buf, off + used, rest[0]);
        rent, used, rest := rent + 1, used + |rest[0]|, rest[1..];
      }
      full := rest != [];
    }
  }

  method Write(buf: array<Byte>, at: nat, s: seq<Byte>)
    requires at + |s| <= buf.Length
    modifies buf
    ensures buf[..] == Overwrite(old(buf[..]), at, s)
  {
    for i := 0 to |s|
      invariant forall x :: 0 <= x < buf.Length ==> buf[x] == if at <= x < at + i then s[x - at] else old(buf[x])
    {
      buf[at + i] := s[i];
    }
  }

  ghost predicate Extends(longer: seq<Byte>, bytes: seq<Byte>) {
    |bytes| <= |longer| && longer[..|bytes|] == bytes
  }

  /** realloc(3) to a larger size; the block may move or the call may fail. */
  method Realloc(base: nat, buf: array<Byte>, n: nat, ok: bool) returns (base': nat, buf': array<Byte>)
    requires buf.Length <= n
    ensures ok ==> fresh(buf') && buf'.Length == n && Extends(buf'[..], buf[..])
    ensures !ok ==> base' == base && buf' == buf
  {
    base', buf' := base, buf;
    if ok {
      base' := *;
      buf' := new Byte[n](i => 0);
      for i := 0 to buf.Length
        invariant buf'[..i] == buf[..i]
      {
        buf'[i] := buf[i];
      }
    }
  }

  /** The buffer starts with the first n records, packed. */
  ghost predicate Got(bytes: seq<Byte>, all: seq<seq<Byte>>, n: nat)
    requires n <= |all|
  {
    |Concat(all[..n])| <= |bytes| && bytes[..|Concat(all[..n])|] == Concat(all[..n])
  }

  lemma GotLonger(bytes: seq<Byte>, longer: seq<Byte>, all: seq<seq<Byte>>, n: nat)
    requires n <= |all| && Got(bytes, all, n) && Extends(longer, bytes)
    ensures Got(longer, all, n)
  {
  }

  lemma GotMore(bytes: seq<Byte>, bytes': seq<Byte>, all: seq<seq<Byte>>, n: nat, off: nat, k: nat)
    requires n <= n + k <= |all| && Got(bytes, all, n) && (k != 0 ==> off == |Concat(all[..n])|)
    requires off + |Concat(all[n..][..k])| <= |bytes| && bytes' == Overwrite(bytes, off, Concat(all[n..][..k]))
    ensures Got(bytes', all, n + k)
    ensures |Concat(all[..n + k])| == |Concat(all[..n])| + |Concat(all[n..][..k])|
  {
    ConcatSplit(all[..n], all[n..][..k]);
    assert all[..n] + all[n..][..k] == all[..n + k];
    if k == 0 {
      assert bytes' == bytes;
    } else {
      OverwritePrefix(bytes, Concat(all[..n]), Concat(all[n..][..k]));
    }
  }

  /** The kernel has returned the first n records; the rest is to go to `off`. */
  ghost predicate Fetching(rest: seq<seq<Byte>>, all: seq<seq<Byte>>, n: nat, bytes: seq<Byte>, off: int) {
    && n <= |all| && rest == all[n..] && Got(bytes, all, n)
    && (rest != [] ==> off == |Concat(all[..n])|)
  }

  ghost predicate Fit(records: seq<seq<Byte>>, sz: int) {
    forall i :: 0 <= i < |records| ==> |records[i]| <= sz
  }

  /** One AUFS_CTL_RDU call, in terms of everything that was there at the start. */
  method Fetch(kernel: Kernel, buf: array<Byte>, off: nat, sz: nat, ghost all: seq<seq<Byte>>, ghost npos: nat)
      returns (rent: nat, used: nat, full: bool)
    requires Fetching(kernel.rest, all, npos, buf[..], off) && off + sz <= buf.Length
    requires kernel.rest != [] ==> |kernel.rest[0]| <= sz
    modifies kernel, buf
    ensures Fetching(kernel.rest, all, npos + rent, buf[..], off + used) && used <= sz
    ensures full <==> kernel.rest != []
    ensures rent <= |old(kernel.rest)| && kernel.rest == old(kernel.rest)[rent..]
    ensures old(kernel.rest) != [] ==> 0 < rent
  {
    ghost var bytes := buf[..];
    rent, used, full := kernel.GetEnt(buf, off, sz);
    GotMore(bytes, buf[..], all, npos, off, rent);
  }

  /** Which of the calls in a row work. */
  datatype Luck = Luck(ioctl: nat -> bool, realloc: nat -> bool)

  ghost predicate Misfortune(luck: Luck) {
    exists k :: !luck.ioctl(k) || !luck.realloc(k)
  }

  /** (param.ent - p->ent) + param.sz == p->sz */
  predicate Layout(base: nat, ent: nat, sz: nat, psz: nat) {
    base <= ent && (ent - base) + sz == psz
  }

  /** The part of the loop that makes room; everything is left alone when it fails. */
  method Enlarge(base0: nat, buf0: array<Byte>, ent0: nat, tail: nat, sz0: nat, psz0: nat, blk: nat, ok: bool,
      ghost rest: seq<seq<Byte>>, ghost all: seq<seq<Byte>>, ghost npos: nat)
      returns (base: nat, buf: array<Byte>, ent: nat, sz: nat, psz: nat)
    requires Layout(base0, ent0, sz0, psz0) && psz0 == buf0.Length && ent0 <= tail <= ent0 + sz0
    requires Fetching(rest, all, npos, buf0[..], tail - base0)
    ensures ok ==> fresh(buf) && psz == psz0 + blk && blk <= sz && ent - base == tail - base0
    ensures !ok ==> base == base0 && buf == buf0 && ent == ent0 && sz == sz0 && psz == psz0
    ensures Layout(base, ent, sz, psz) && psz == buf.Length
    ensures ok ==> Fetching(rest, all, npos, buf[..], ent - base)
  {
    base, buf, ent, sz, psz := base0, buf0, ent0, sz0, psz0;
    var b, e := Realloc(base, buf, psz + blk, ok);
    if ok {
      GotLonger(buf[..], e[..], all, npos);
      var used := tail - ent;
      sz := sz + blk - used;
      used := used + (ent - base);
      base, buf := b, e;
      ent := base + used;
      psz := psz + blk;
    }
  }

  /** The loop of rdu_init. `ent` and `tail` are addresses, as in struct aufs_rdu. */
  method Grow(kernel: Kernel, base0: nat, buf0: array<Byte>, blk: nat, luck: Luck)
      returns (err: bool, npos: nat, base: nat, buf: array<Byte>)
    requires Fit(kernel.rest, blk) && Fit(kernel.rest, buf0.Length)
    modifies kernel, buf0
    ensures buf == buf0 || fresh(buf)
    ensures err ==> Misfortune(luck) && npos <= |old(kernel.rest)|
    ensures !err ==> npos == |old(kernel.rest)| && kernel.rest == []
    ensures !err ==> Got(buf[..], old(kernel.rest), |old(kernel.rest)|)
  {
    ghost var all := kernel.rest;
    base, buf, npos, err := base0, buf0, 0, false;
    var psz: nat, ent: nat, sz: nat := buf.Length, base, buf.Length;
    var turn: nat := 0;
    assert all[0..] == all;
    while true
      invariant !err && Layout(base, ent, sz, psz) && psz == buf.Length
      invariant buf == buf0 || fresh(buf)
      invariant Fetching(kernel.rest, all, npos, buf[..], ent - base) && Fit(kernel.rest, sz)
      decreases |kernel.rest|, if kernel.rest == [] then 1 else 0
    {
      if !luck.ioctl(turn) {
        err := true;
        return;
      }
      var rent, used, full := Fetch(kernel, buf, ent - base, sz, all, npos);
      var tail := ent + used;
      if rent == 0 {
        break;
      }
      npos, turn := npos + rent, turn + 1;
      if !full {
        continue;
      }
      var ok := luck.realloc(turn);
      base, buf, ent, sz, psz := Enlarge(base, buf, ent, tail, sz, psz, blk, ok, kernel.rest, all, npos);
      if !ok {
        err := true;
        return;
      }
    }
  }
}
