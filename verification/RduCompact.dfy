/**
  The compaction at the end of rdu_merge: records that survive are moved
  together towards the start of the buffer they are in, and the array of
  pointers to them follows.
  */
module RduCompact {
  import opened Basics
  import opened RduNames

  const NLEN := 11  // offset of nlen in a record

  /** au_rdu_len: a record is sixteen bytes, the name and its terminator, in units of eight. */
  function RecLen(nlen: nat): (r: nat)
    ensures nlen + 17 <= r <= nlen + 24
  {
    (16 + nlen + 1 + 7) / 8 * 8
  }

  /** It is the only multiple of eight within these bounds. */
  lemma RecLenExact(nlen: nat, m: nat)
    requires nlen + 17 <= m <= nlen + 24
    ensures m % 8 == 0 <==> m == RecLen(nlen)
  {
  }

  /** Records of given lengths at increasing places `from`, and where each belongs. */
  datatype Plan = Plan(from: seq<nat>, to: seq<nat>, len: seq<nat>)

  ghost predicate PlanOk(p: Plan, mem: seq<Byte>) {
    && |p.from| == |p.to| == |p.len|
    && (forall i :: 0 <= i < |p.from| ==>
          NLEN < p.len[i] && p.from[i] + p.len[i] <= |mem| && RecLen(mem[p.from[i] + NLEN]) == p.len[i])
    && (forall i, j :: 0 <= i < j < |p.from| ==> p.from[i] + p.len[i] <= p.from[j])
    && (|p.to| > 0 ==> p.to[0] == 0)
    && (forall i :: 0 <= i < |p.to| - 1 ==> p.to[i + 1] == p.to[i] + p.len[i])
  }

  /** No record belongs behind the place where it is. */
  lemma {:induction false} ToBelowFrom(p: Plan, mem: seq<Byte>, i: nat)
    requires PlanOk(p, mem) && i < |p.to|
    ensures p.to[i] <= p.from[i]
  {
    if 0 < i {
      ToBelowFrom(p, mem, i - 1);
      assert p.to[i - 1 + 1] == p.to[i - 1] + p.len[i - 1];
    }
  }

  lemma {:induction false} ToMono(p: Plan, mem: seq<Byte>, i: nat, j: nat)
    requires PlanOk(p, mem) && i < j < |p.to|
    ensures p.to[i] + p.len[i] <= p.to[j]
  {
    if i + 1 < j {
      ToMono(p, mem, i, j - 1);
      assert p.to[j - 1 + 1] == p.to[j - 1] + p.len[j - 1];
    } else {
      assert p.to[i + 1] == p.to[i] + p.len[i];
    }
  }

  /** The same bytes, at o in mem and at o0 in mem0. */
  ghost predicate Same(mem: seq<Byte>, o: nat, mem0: seq<Byte>, o0: nat, len: nat) {
    o + len <= |mem| && o0 + len <= |mem0| && mem[o..o + len] == mem0[o0..o0 + len]
  }

  /** The first k records are at their final places, the others still where they were. */
  ghost predicate Moved(p: Plan, mem: seq<Byte>, mem0: seq<Byte>, k: nat)
    requires PlanOk(p, mem0)
  {
    && |mem| == |mem0|
    && (forall i :: 0 <= i < |p.to| && i < k ==> Same(mem, p.to[i], mem0, p.from[i], p.len[i]))
    && (forall i :: k <= i < |p.to| ==> Same(mem, p.from[i], mem0, p.from[i], p.len[i]))
  }

  /** The buffer after memmove(dst, src, len) towards its start. */
  function Copied(mem: seq<Byte>, dst: nat, src: nat, len: nat): (r: seq<Byte>)
    requires dst <= src && src + len <= |mem|
    ensures |r| == |mem|
  {
    mem[..dst] + mem[src..src + len] + mem[dst + len..]
  }

  lemma CopyMoves(mem: seq<Byte>, dst: nat, src: nat, len: nat)
    requires dst <= src && src + len <= |mem|
    ensures Copied(mem, dst, src, len)[dst..dst + len] == mem[src..src + len]
  {
  }

  lemma CopyKeeps(mem: seq<Byte>, dst: nat, src: nat, len: nat, o: nat, l: nat)
    requires dst <= src && src + len <= |mem| && o + l <= |mem|
    requires o + l <= dst || dst + len <= o
    ensures Copied(mem, dst, src, len)[o..o + l] == mem[o..o + l]
  {
  }

  lemma SubSlice(s: seq<Byte>, a: nat, b: nat, o: nat, l: nat)
    requires a <= o && o + l <= b <= |s|
    ensures s[a..b][o - a..o - a + l] == s[o..o + l]
  {
    var x, y := s[a..b][o - a..o - a + l], s[o..o + l];
    forall i | 0 <= i < l ensures x[i] == y[i] {
    }
  }

  /** A record is read from untouched memory, and its length again from its copy. */
  lemma MoveReads(p: Plan, mem: seq<Byte>, mem0: seq<Byte>, k: nat)
    requires PlanOk(p, mem0) && k < |p.to| && Moved(p, mem, mem0, k)
    ensures p.to[k] <= p.from[k] && p.from[k] + p.len[k] <= |mem|
    ensures RecLen(mem[p.from[k] + NLEN]) == p.len[k]
    ensures var mem' := Copied(mem, p.to[k], p.from[k], p.len[k]);
            RecLen(mem'[p.to[k] + NLEN]) == p.len[k] && Same(mem', p.to[k], mem0, p.from[k], p.len[k])
  {
    ToBelowFrom(p, mem0, k);
    var dst, src, len := p.to[k], p.from[k], p.len[k];
    var mem' := Copied(mem, dst, src, len);
    CopyMoves(mem, dst, src, len);
    assert Same(mem, src, mem0, src, len);
    assert mem[src + NLEN] == mem[src..src + len][NLEN] == mem0[src..src + len][NLEN];
    assert mem'[dst + NLEN] == mem'[dst..dst + len][NLEN];
  }

  /** It is written over no record that is in place or still to be moved. */
  lemma MoveKeeps(p: Plan, mem: seq<Byte>, mem0: seq<Byte>, k: nat, i: nat)
    requires PlanOk(p, mem0) && k < |p.to| && i < |p.to| && i != k && Moved(p, mem, mem0, k)
    requires p.to[k] <= p.from[k] && p.from[k] + p.len[k] <= |mem|
    ensures var mem' := Copied(mem, p.to[k], p.from[k], p.len[k]);
            Same(mem', if i < k then p.to[i] else p.from[i], mem0, p.from[i], p.len[i])
  {
    if i < k {
      assert Same(mem, p.to[i], mem0, p.from[i], p.len[i]);
      ToMono(p, mem0, i, k);
      CopyKeeps(mem, p.to[k], p.from[k], p.len[k], p.to[i], p.len[i]);
    } else {
      assert Same(mem, p.from[i], mem0, p.from[i], p.len[i]);
      assert p.from[k] + p.len[k] <= p.from[i];
      CopyKeeps(mem, p.to[k], p.from[k], p.len[k], p.from[i], p.len[i]);
    }
  }

  lemma MoveStep(p: Plan, mem: seq<Byte>, mem0: seq<Byte>, k: nat)
    requires PlanOk(p, mem0) && k < |p.to| && Moved(p, mem, mem0, k)
    ensures p.to[k] <= p.from[k] && p.from[k] + p.len[k] <= |mem|
    ensures RecLen(mem[p.from[k] + NLEN]) == p.len[k]
    ensures var mem' := Copied(mem, p.to[k], p.from[k], p.len[k]);
            RecLen(mem'[p.to[k] + NLEN]) == p.len[k] && Moved(p, mem', mem0, k + 1)
  {
    MoveReads(p, mem, mem0, k);
    var mem' := Copied(mem, p.to[k], p.from[k], p.len[k]);
    forall i | 0 <= i < |p.to| && i != k
      ensures Same(mem', if i < k then p.to[i] else p.from[i], mem0, p.from[i], p.len[i])
    {
      MoveKeeps(p, mem, mem0, k, i);
    }
  }

  /** A record that is already at its place need not be moved. */
  lemma StayStep(p: Plan, mem: seq<Byte>, mem0: seq<Byte>, k: nat)
    requires PlanOk(p, mem0) && k < |p.to| && Moved(p, mem, mem0, k) && p.to[k] == p.from[k]
    ensures p.to[k] + NLEN < |mem| && Moved(p, mem, mem0, k + 1)
    ensures k + 1 < |p.to| ==> p.to[k + 1] == p.to[k] + RecLen(mem[p.to[k] + NLEN])
  {
    assert Same(mem, p.from[k], mem0, p.from[k], p.len[k]);
    assert mem[p.from[k]..p.from[k] + p.len[k]][NLEN] == mem0[p.from[k]..p.from[k] + p.len[k]][NLEN];
  }

  /** memmove(3) towards the start of the buffer, byte by byte. */
  method MemMove(mem: array<Byte>, dst: nat, src: nat, len: nat)
    requires dst <= src && src + len <= mem.Length
    modifies mem
    ensures mem[..] == Copied(old(mem[..]), dst, src, len)
  {
    ghost var was := mem[..];
    for i := 0 to len
      invariant mem[..dst] == was[..dst]
      invariant mem[dst..dst + i] == was[src..src + i]
      invariant mem[dst + i..] == was[dst + i..]
    {
      assert mem[src + i] == mem[dst + i..][src - dst] == was[src + i];
      mem[dst + i] := mem[src + i];
    }
    assert mem[..] == mem[..dst] + mem[dst..dst + len] + mem[dst + len..];
  }

  /** One turn of the second loop. */
  method MoveOne(mem: array<Byte>, pos: array<nat>, u: nat, ul: nat, ghost p: Plan, ghost mem0: seq<Byte>)
      returns (next: nat)
    requires PlanOk(p, mem0) && ul < |p.to| <= pos.Length && pos as object != mem
    requires Moved(p, mem[..], mem0, ul) && u == p.to[ul] && pos[ul] == p.from[ul]
    modifies mem, pos
    ensures Moved(p, mem[..], mem0, ul + 1) && pos[..] == old(pos[..])[ul := u]
    ensures next == u + p.len[ul]
  {
    MoveStep(p, mem[..], mem0, ul);
    MemMove(mem, u, pos[ul], RecLen(mem[pos[ul] + NLEN]));
    pos[ul] := u;
    next := u + RecLen(mem[u + NLEN]);
  }

  /** The two loops of the compaction: the records already in place, then the moves. */
  method Compact(mem: array<Byte>, pos: array<nat>, n: nat, ghost p: Plan)
    requires PlanOk(p, mem[..]) && n == |p.from| <= pos.Length && pos as object != mem
    requires forall i :: 0 <= i < n ==> pos[i] == p.from[i]
    modifies mem, pos
    ensures Moved(p, mem[..], old(mem[..]), n)
    ensures forall i :: 0 <= i < n ==> pos[i] == p.to[i]
  {
    ghost var mem0 := mem[..];
    var u, ul := StayRun(mem, pos, n, p);
    while ul < n
      invariant ul <= n && (ul < n ==> u == p.to[ul])
      invariant Moved(p, mem[..], mem0, ul)
      invariant forall i :: 0 <= i < ul ==> pos[i] == p.to[i]
      invariant forall i :: ul <= i < n ==> pos[i] == p.from[i]
    {
      u := MoveOne(mem, pos, u, ul, p, mem0);
      ul := ul + 1;
    }
  }

  method StayRun(mem: array<Byte>, pos: array<nat>, n: nat, ghost p: Plan) returns (u: nat, ul: nat)
    requires PlanOk(p, mem[..]) && n == |p.from| <= pos.Length
    requires forall i :: 0 <= i < n ==> pos[i] == p.from[i]
    ensures ul <= n && (ul < n ==> u == p.to[ul]) && Moved(p, mem[..], mem[..], ul)
    ensures forall i :: 0 <= i < ul ==> pos[i] == p.to[i]
  {
    u, ul := 0, 0;
    ghost var was := mem[..];
    while ul < n && pos[ul] == u
      invariant ul <= n && (ul < n ==> u == p.to[ul])
      invariant Moved(p, was, was, ul)
      invariant forall i :: 0 <= i < ul ==> pos[i] == p.to[i]
    {
      StayStep(p, was, was, ul);
      u := u + RecLen(mem[u + NLEN]);
      ul := ul + 1;
    }
  }
}
