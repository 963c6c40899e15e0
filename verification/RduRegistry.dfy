/**
  The registry of directory buffers in rdu_lib.c: an array of pointers that only
  grows, in which a closed buffer (fd -1) is taken over by the next open one.
  */
module RduRegistry {

  const RDU_STEP := 8

  class Buf {
    var fd: int
    constructor (fd: int)
      ensures this.fd == fd
    {
      this.fd := fd;
    }
  }

  ghost function LiveSet(fds: seq<int>): set<int> {
    set x | x in fds && 0 <= x
  }

  ghost predicate Distinct(fds: seq<int>) {
    forall i, j :: 0 <= i < j < |fds| && 0 <= fds[i] ==> fds[i] != fds[j]
  }

  /** A registry holds at most as many live buffers as slots, and exactly as
      many when no slot is closed. */
  lemma {:induction false} LiveCount(fds: seq<int>)
    requires Distinct(fds)
    ensures |LiveSet(fds)| <= |fds|
    ensures (forall i :: 0 <= i < |fds| ==> 0 <= fds[i]) ==> |LiveSet(fds)| == |fds|
  {
    if fds != [] {
      var n := |fds| - 1;
      LiveCount(fds[..n]);
      assert fds == fds[..n] + [fds[n]];
      if 0 <= fds[n] {
        assert LiveSet(fds) == LiveSet(fds[..n]) + {fds[n]};
        assert fds[n] !in fds[..n];
      } else {
        assert LiveSet(fds) == LiveSet(fds[..n]);
      }
    }
  }

  lemma LiveAlready(fds: seq<int>, i: nat, fd: int)
    requires i < |fds| && fds[i] == fd && 0 <= fd
    ensures LiveSet(fds) == LiveSet(fds) + {fd}
  {
  }

  lemma LiveUpdate(fds: seq<int>, i: nat, fd: int)
    requires i < |fds| && fds[i] < 0 && 0 <= fd && fd !in fds && Distinct(fds)
    ensures Distinct(fds[i := fd]) && LiveSet(fds[i := fd]) == LiveSet(fds) + {fd}
  {
    var fds' := fds[i := fd];
    assert fds'[i] == fd;
    forall x | x in LiveSet(fds) ensures x in LiveSet(fds') {
      var j :| 0 <= j < |fds| && fds[j] == x;
      assert fds'[j] == x;
    }
  }

  lemma LiveAppend(fds: seq<int>, fd: int)
    requires 0 <= fd && fd !in fds && Distinct(fds)
    ensures Distinct(fds + [fd]) && LiveSet(fds + [fd]) == LiveSet(fds) + {fd}
  {
  }

  lemma LiveClose(fds: seq<int>, i: nat)
    requires i < |fds| && 0 <= fds[i] && Distinct(fds)
    ensures Distinct(fds[i := -1]) && LiveSet(fds[i := -1]) == LiveSet(fds) - {fds[i]}
  {
    var fds' := fds[i := -1];
    forall x | x in LiveSet(fds) && x != fds[i] ensures x in LiveSet(fds') {
      var j :| 0 <= j < |fds| && fds[j] == x;
      assert fds'[j] == x;
    }
  }

  lemma LiveNew(fds: seq<int>, fd: int)
    requires 0 <= fd && fd !in fds && Distinct(fds) && forall i :: 0 <= i < |fds| ==> 0 <= fds[i]
    ensures Distinct(fds + [fd]) && LiveSet(fds + [fd]) == LiveSet(fds) + {fd}
    ensures |LiveSet(fds)| == |fds| && |LiveSet(fds + [fd])| == |fds| + 1
  {
    LiveCount(fds);
    LiveAppend(fds, fd);
    LiveCount(fds + [fd]);
  }

  ghost function FdsOf(bufs: seq<Buf>): (s: seq<int>)
    reads bufs
    ensures |s| == |bufs| && forall i :: 0 <= i < |bufs| ==> s[i] == bufs[i].fd
  {
    seq(|bufs|, i requires 0 <= i < |bufs| reads bufs => bufs[i].fd)
  }

  /** The live buffers have distinct descriptors, and there is a slot for each
      buffer of the busiest moment, and no more. */
  ghost predicate FdsOk(fds: seq<int>, most: nat) {
    && Distinct(fds) && (forall i :: 0 <= i < |fds| ==> -1 <= fds[i])
    && |fds| == most && |LiveSet(fds)| <= most
  }

  /** The descriptor is live now, and the maximum of live ones is up to date. */
  ghost predicate Counted(was: seq<int>, most0: nat, fds: seq<int>, most: nat, fd: int) {
    LiveSet(fds) == LiveSet(was) + {fd} && most == if |LiveSet(fds)| > most0 then |LiveSet(fds)| else most0
  }

  lemma RevivedOk(fds: seq<int>, most: nat, i: nat, fd: int)
    requires FdsOk(fds, most) && i < |fds| && fds[i] == -1 && 0 <= fd && fd !in fds
    ensures FdsOk(fds[i := fd], most) && Counted(fds, most, fds[i := fd], most, fd)
  {
    LiveUpdate(fds, i, fd);
    LiveCount(fds[i := fd]);
  }

  lemma NewOk(fds: seq<int>, most: nat, fd: int)
    requires FdsOk(fds, most) && 0 <= fd && fd !in fds && forall i :: 0 <= i < |fds| ==> 0 <= fds[i]
    ensures FdsOk(fds + [fd], most + 1) && Counted(fds, most, fds + [fd], most + 1, fd)
  {
    LiveNew(fds, fd);
  }

  lemma FreedOk(fds: seq<int>, most: nat, i: nat)
    requires FdsOk(fds, most) && i < |fds| && 0 <= fds[i]
    ensures FdsOk(fds[i := -1], most) && LiveSet(fds[i := -1]) == LiveSet(fds) - {fds[i]}
  {
    LiveClose(fds, i);
    LiveCount(fds[i := -1]);
  }

  lemma FdsAppend(bufs: seq<Buf>, p: Buf)
    ensures FdsOf(bufs + [p]) == FdsOf(bufs) + [p.fd]
  {
  }

  class Registry {
    var rdu: array<Buf?>
    var cur: nat
    var lim: nat
    ghost var bufs: seq<Buf>  // the buffers in the first `cur` slots
    ghost var most: nat       // the largest number of buffers ever live at once

    /** rdu_lib_init */
    constructor ()
      ensures Valid() && bufs == [] && fresh(rdu)
    {
      rdu := new Buf?[RDU_STEP](i => null);
      cur, lim, bufs, most := 0, RDU_STEP, [], 0;
    }

    ghost predicate Shape()
      reads this, rdu
    {
      && |bufs| == cur <= lim == rdu.Length
      && (forall i :: 0 <= i < cur ==> rdu[i] == bufs[i])
      && (forall i, j :: 0 <= i < j < cur ==> bufs[i] != bufs[j])
    }

    ghost function Fds(): (s: seq<int>)
      reads this`bufs, bufs
    {
      FdsOf(bufs)
    }

    ghost predicate Valid()
      reads this, rdu, bufs
    {
      Shape() && FdsOk(Fds(), most)
    }

    method Append(p: Buf)
      requires Shape() && p !in bufs
      modifies this`rdu, this`cur, this`lim, this`bufs, rdu
      ensures Shape() && bufs == old(bufs) + [p] && (rdu == old(rdu) || fresh(rdu))
    {
      if cur <= lim - 1 {
        rdu[cur] := p;
        cur := cur + 1;
      } else {
        var t := new Buf?[lim + RDU_STEP](i requires 0 <= i reads this, rdu => if i < rdu.Length then rdu[i] else null);
        rdu := t;
        lim := lim + RDU_STEP;
        rdu[cur] := p;
        cur := cur + 1;
        for i := 0 to RDU_STEP - 1
          invariant bufs == old(bufs) && fresh(rdu) && rdu == t
          invariant cur + RDU_STEP - 1 == lim == rdu.Length && cur == |bufs| + 1
          invariant forall k :: 0 <= k < cur ==> rdu[k] == if k == cur - 1 then p else bufs[k]
        {
          rdu[cur + i] := null;
        }
      }
      bufs := bufs + [p];
    }

    /** The two loops of rdu_buf_lock. */
    method Find(fd: int) returns (i: nat)
      requires Shape()
      ensures i <= cur && (i < cur ==> bufs[i].fd == fd)
      ensures forall k :: 0 <= k < i ==> bufs[k].fd != fd
    {
      i := 0;
      while i < cur
        invariant i <= cur && forall k :: 0 <= k < i ==> bufs[k].fd != fd
      {
        if rdu[i].fd == fd {
          return;
        }
        i := i + 1;
      }
    }

    /** A closed buffer is taken over. */
    method Revive(i: nat, fd: int) returns (p: Buf)
      requires Valid() && 0 <= fd && i < cur && bufs[i].fd == -1 && fd !in Fds()
      modifies bufs
      ensures Valid() && p == bufs[i] && p in bufs && p.fd == fd
      ensures forall b <- bufs :: b != p ==> b.fd == old(b.fd)
      ensures forall b <- bufs :: 0 <= old(b.fd) ==> b.fd == old(b.fd)
      ensures Counted(old(Fds()), most, Fds(), most, fd)
    {
      ghost var fds := Fds();
      p := rdu[i];
      p.fd := fd;
      RevivedOk(fds, most, i, fd);
      assert Fds() == fds[i := fd];
    }

    /** rdu_new: only when every slot is live. */
    method New(fd: int) returns (p: Buf)
      requires Valid() && 0 <= fd && fd !in Fds() && forall b <- bufs :: 0 <= b.fd
      modifies this, rdu
      ensures Valid() && fresh(p) && p in bufs && p.fd == fd && bufs == old(bufs) + [p]
      ensures rdu == old(rdu) || fresh(rdu)
      ensures forall b <- old(bufs) :: b.fd == old(b.fd)
      ensures Counted(old(Fds()), old(most), Fds(), most, fd) && most == old(most) + 1
    {
      ghost var fds, was := Fds(), bufs;
      NewOk(fds, most, fd);
      p := new Buf(fd);
      Append(p);
      most := most + 1;
      assert FdsOf(was) == fds;
      FdsAppend(was, p);
      assert Fds() == fds + [fd];
    }

    /** rdu_buf_lock: the buffer of an open directory, found, revived or new. */
    method BufLock(fd: int) returns (p: Buf)
      requires Valid() && 0 <= fd
      modifies this, rdu, bufs
      ensures Valid() && p in bufs && p.fd == fd && (rdu == old(rdu) || fresh(rdu))
      ensures bufs == old(bufs) || (fresh(p) && bufs == old(bufs) + [p])
      ensures forall b <- old(bufs) :: 0 <= old(b.fd) ==> b.fd == old(b.fd)
      ensures Counted(old(Fds()), old(most), Fds(), most, fd)
    {
      var i := Find(fd);
      if i < cur {
        p := rdu[i];
        LiveAlready(Fds(), i, fd);
        return;
      }
      p := Take(fd);
    }

    /** A closed buffer, or a new one. */
    method Take(fd: int) returns (p: Buf)
      requires Valid() && 0 <= fd && forall i :: 0 <= i < |bufs| ==> bufs[i].fd != fd
      modifies this, rdu, bufs
      ensures Valid() && p in bufs && p.fd == fd && (rdu == old(rdu) || fresh(rdu))
      ensures bufs == old(bufs) || (fresh(p) && bufs == old(bufs) + [p])
      ensures forall b <- old(bufs) :: 0 <= old(b.fd) ==> b.fd == old(b.fd)
      ensures Counted(old(Fds()), old(most), Fds(), most, fd)
    {
      var i := Find(-1);
      NotListed(fd, i);
      if i < cur {
        p := Revive(i, fd);
      } else {
        p := New(fd);
      }
    }

    lemma NotListed(fd: int, i: nat)
      requires Valid() && i <= cur && forall k :: 0 <= k < |bufs| ==> bufs[k].fd != fd
      requires forall k :: 0 <= k < i ==> bufs[k].fd != -1
      ensures fd !in Fds() && (i == cur ==> forall b <- bufs :: 0 <= b.fd)
    {
    }

    /** rdu_free */
    method Free(p: Buf)
      requires Valid() && p in bufs && 0 <= p.fd
      modifies p
      ensures Valid() && LiveSet(Fds()) == LiveSet(old(Fds())) - {old(p.fd)}
    {
      ghost var i :| 0 <= i < cur && bufs[i] == p;
      ghost var fds := Fds();
      p.fd := -1;
      FreedOk(fds, most, i);
      assert Fds() == fds[i := -1];
    }
  }
}
