/**
  The file list of the move-down daemon: a file of NUL-terminated records that
  is used as a stack, and a second file of records to be tried again.
  */
module FhsmList {
  import opened Basics

  const SPACE: Byte := 32

  /** One line of the list: no NUL but the last byte. */
  ghost predicate IsRec(r: seq<Byte>) {
    r != [] && r[|r| - 1] == 0 && forall i :: 0 <= i < |r| - 1 ==> r[i] != 0
  }

  ghost predicate AllRecs(rs: seq<seq<Byte>>) {
    forall i :: 0 <= i < |rs| ==> IsRec(rs[i])
  }

  function Flat(rs: seq<seq<Byte>>): seq<Byte> {
    if rs == [] then [] else Flat(rs[..|rs| - 1]) + rs[|rs| - 1]
  }

  function Reverse(rs: seq<seq<Byte>>): (s: seq<seq<Byte>>)
    ensures |s| == |rs|
    ensures forall i :: 0 <= i < |rs| ==> s[i] == rs[|rs| - 1 - i]
  {
    if rs == [] then [] else [rs[|rs| - 1]] + Reverse(rs[..|rs| - 1])
  }

  lemma {:induction false} FlatAppend(a: seq<seq<Byte>>, b: seq<seq<Byte>>)
    ensures Flat(a + b) == Flat(a) + Flat(b)
  {
    if b == [] {
      assert a + b == a;
    } else {
      var c, n := a + b, |b| - 1;
      FlatAppend(a, b[..n]);
      assert c[..|c| - 1] == a + b[..n] && c[|c| - 1] == b[n];
      assert Flat(c) == Flat(a + b[..n]) + b[n];
    }
  }

  /** memrchr(s, 0, n): the last NUL among the first n bytes, or -1. */
  function MemRChr(s: seq<Byte>, n: nat): (i: int)
    requires n <= |s|
    ensures -1 <= i < n && (0 <= i ==> s[i] == 0)
    ensures forall k :: i < k < n ==> s[k] != 0
  {
    if n == 0 then -1 else if s[n - 1] == 0 then n - 1 else MemRChr(s, n - 1)
  }

  /** Where the last record of a list starts. */
  function LastStart(s: seq<Byte>): (i: nat)
    requires s != []
    ensures i < |s|
  {
    MemRChr(s, |s| - 1) + 1
  }

  /** The last record, whatever precedes it, is found by its length alone. */
  lemma LastIs(head: seq<Byte>, r: seq<Byte>)
    requires IsRec(r) && (head == [] || head[|head| - 1] == 0)
    ensures LastStart(head + r) == |head|
  {
    var s := head + r;
    if head != [] { assert s[|head| - 1] == 0; }
    forall k | |head| <= k < |s| - 1 ensures s[k] != 0 {
      assert s[k] == r[k - |head|];
    }
  }

  lemma FlatEnds(rs: seq<seq<Byte>>)
    requires AllRecs(rs)
    ensures rs != [] ==> Flat(rs) != [] && Flat(rs)[|Flat(rs)| - 1] == 0
    ensures Flat(rs) == [] <==> rs == []
  {
  }

  lemma SplitOff(rs: seq<seq<Byte>>, r: seq<Byte>)
    requires AllRecs(rs) && IsRec(r)
    ensures Flat(rs + [r]) == Flat(rs) + r && AllRecs(rs + [r])
  {
  }

  /** The file holds these records. */
  ghost predicate Consists(file: seq<Byte>, rs: seq<seq<Byte>>) {
    AllRecs(rs) && file == Flat(rs)
  }

  lemma {:induction false} Splits(s: seq<Byte>) returns (rs: seq<seq<Byte>>)
    requires s == [] || s[|s| - 1] == 0
    ensures Consists(s, rs)
    decreases |s|
  {
    rs := [];
    if s != [] {
      var i := LastStart(s);
      rs := Splits(s[..i]);
      assert IsRec(s[i..]);
      SplitOff(rs, s[i..]);
      rs := rs + [s[i..]];
      assert s == s[..i] + s[i..];
    }
  }

  /** A file holds its records in one way only. */
  lemma {:induction false} OneWay(file: seq<Byte>, rs: seq<seq<Byte>>, qs: seq<seq<Byte>>)
    requires Consists(file, rs) && Consists(file, qs)
    ensures rs == qs
    decreases |rs|
  {
    FlatEnds(rs);
    FlatEnds(qs);
    if rs != [] {
      var n, m := |rs| - 1, |qs| - 1;
      FlatEnds(rs[..n]);
      FlatEnds(qs[..m]);
      LastIs(Flat(rs[..n]), rs[n]);
      LastIs(Flat(qs[..m]), qs[m]);
      SameCut(Flat(rs[..n]), rs[n], Flat(qs[..m]), qs[m]);
      OneWay(Flat(rs[..n]), rs[..n], qs[..m]);
      assert rs == rs[..n] + [rs[n]] && qs == qs[..m] + [qs[m]];
    }
  }

  lemma SameCut(a: seq<Byte>, r: seq<Byte>, b: seq<Byte>, q: seq<Byte>)
    requires a + r == b + q && |a| == |b|
    ensures a == b && r == q
  {
    assert a == (a + r)[..|a|] && b == (b + q)[..|b|] && r == (a + r)[|a|..] && q == (b + q)[|b|..];
  }

  /** Every NUL-terminated file is the concatenation of its records. */
  ghost function Split(s: seq<Byte>): (rs: seq<seq<Byte>>)
    requires s == [] || s[|s| - 1] == 0
    ensures Consists(s, rs)
  {
    assert exists rs :: Consists(s, rs) by { var rs := Splits(s); }
    var rs :| Consists(s, rs);
    rs
  }

  // ---- taking one record off the list

  /** strchr(s, ' ') in a C string that starts at i. */
  function StrChr(s: seq<Byte>, i: nat): (k: int)
    requires i <= |s|
    ensures k == -1 || (i <= k < |s| && s[k] == SPACE)
    ensures forall j :: i <= j < k ==> s[j] != SPACE && s[j] != 0
    decreases |s| - i
  {
    if i == |s| || s[i] == 0 then -1 else if s[i] == SPACE then i else StrChr(s, i + 1)
  }

  /** It is -1 just when there is none before the terminator. */
  lemma {:induction false} StrChrNone(s: seq<Byte>, i: nat, j: nat)
    requires i <= j < |s| && s[j] == SPACE && forall l :: i <= l < j ==> s[l] != 0
    ensures i <= StrChr(s, i) <= j
    decreases j - i
  {
    if i < j && s[i] != SPACE { StrChrNone(s, i + 1, j); }
  }

  /** atime, size and name: a record without two spaces is fatal. */
  predicate WellFormed(r: seq<Byte>) {
    var k := StrChr(r, 0);
    0 <= k && 0 <= StrChr(r, k + 1)
  }

  /** For a record of a list: those with two spaces. */
  lemma WellFormedIff(r: seq<Byte>)
    requires IsRec(r)
    ensures WellFormed(r) <==> exists i, j :: 0 <= i < j < |r| && r[i] == SPACE && r[j] == SPACE
  {
    if i, j :| 0 <= i < j < |r| && r[i] == SPACE && r[j] == SPACE {
      StrChrNone(r, 0, i);
      StrChrNone(r, StrChr(r, 0) + 1, j);
    }
  }

  datatype Fname = Fname(atime: nat, sz: nat, name: nat, len: nat)

  lemma Shifted(o: seq<Byte>, at: nat, k: nat, n: nat)
    requires at <= |o| && k < n < |o| - at && o[at..][k] == o[at..][n] == SPACE
    requires forall j :: 0 <= j < n && j != k ==> o[at..][j] != SPACE && o[at..][j] != 0
    ensures o[at + k] == o[at + n] == SPACE
    ensures forall j :: at <= j < at + n && j != at + k ==> o[j] != SPACE && o[j] != 0
  {
    forall j | at <= j < at + n && j != at + k ensures o[j] != SPACE && o[j] != 0 {
      assert o[j] == o[at..][j - at];
    }
  }

  /** au_fname_one on a list of `len` bytes; `fatal` stands for the exit. */
  method FnameOne(o: seq<Byte>) returns (fatal: bool, f: Fname)
    requires o != []
    ensures f.atime == LastStart(o) && f.len == |o| - LastStart(o)
    ensures fatal <==> !WellFormed(o[f.atime..])
    ensures !fatal ==> f.atime < f.sz < f.name <= |o| && o[f.sz - 1] == SPACE == o[f.name - 1]
    ensures !fatal ==> forall j :: f.atime <= j < f.name - 1 && j != f.sz - 1 ==> o[j] != SPACE && o[j] != 0
  {
    var atime, len: int := MemRChr(o, |o| - 1), 0;
    if 0 <= atime {
      len := |o| - atime - 1;
      atime := atime + 1;
    } else {
      len := |o|;
      atime := 0;
    }
    f := Fname(atime, atime, atime, len);
    var r := o[atime..];
    var k := StrChr(r, 0);
    if k < 0 {
      return true, f;
    }
    var n := StrChr(r, k + 1);
    if n < 0 {
      return true, f;
    }
    Shifted(o, atime, k, n);
    return false, Fname(atime, atime + k + 1, atime + n + 1, len);
  }

  // ---- putting the failed records back

  function StrLen(s: seq<Byte>, i: nat): (n: nat)
    requires i <= |s|
    ensures i + n <= |s|
    decreases |s| - i
  {
    if i == |s| || s[i] == 0 then 0 else 1 + StrLen(s, i + 1)
  }

  lemma {:induction false} StrLenAt(s: seq<Byte>, i: nat, e: nat)
    requires i <= e < |s| && s[e] == 0 && forall k :: i <= k < e ==> s[k] != 0
    ensures StrLen(s, i) == e - i
    decreases e - i
  {
    if i < e { StrLenAt(s, i + 1, e); }
  }

  method MemCpy(dst: array<Byte>, at: nat, src: seq<Byte>)
    requires at + |src| <= dst.Length
    modifies dst
    ensures dst[..at + |src|] == old(dst[..at]) + src
  {
    for i := 0 to |src|
      invariant dst[..at + i] == old(dst[..at]) + src[..i]
    {
      dst[at + i] := src[i];
    }
  }

  /** The records from n on have been copied, last one first; the others are to come. */
  ghost predicate Copying(rev: seq<Byte>, tgt: int, left: int, fail: seq<Byte>, fs: seq<seq<Byte>>, n: nat) {
    && n <= |fs| && AllRecs(fs) && 0 <= tgt <= |rev| == |fail| + 1
    && Flat(fs[..n]) <= fail && left == |Flat(fs[..n])| - 1
    && rev[..tgt] == [0] + Flat(Reverse(fs[n..]))
    && tgt + left == |fail| && fail != [] && (n == 0 ==> fail[0] != 0)
  }

  /** The record that one turn of the loop finds. */
  lemma TurnFinds(fail: seq<Byte>, fs: seq<seq<Byte>>, n: nat)
    requires AllRecs(fs) && n <= |fs| && Flat(fs[..n]) <= fail && 1 < |Flat(fs[..n])|
    ensures var left := |Flat(fs[..n])| - 1; var src := MemRChr(fail, left) + 1; var l := StrLen(fail, src) + 1;
      && 0 < n && src + l == left + 1 && fail[src..src + l] == fs[n - 1] && |Flat(fs[..n - 1])| == src
      && Flat(fs[..n - 1]) <= fail && (n == 1 ==> fail[0] != 0)
  {
    Shrink(fail, fs, n);
    TurnAt(fail, Flat(fs[..n]));
  }

  lemma CopyingStep(rev: seq<Byte>, rev': seq<Byte>, tgt: nat, left: int, fail: seq<Byte>, fs: seq<seq<Byte>>, n: nat)
    requires Copying(rev, tgt, left, fail, fs, n) && 0 < n && |Flat(fs[..n])| == |Flat(fs[..n - 1])| + |fs[n - 1]|
    requires Flat(fs[..n - 1]) <= fail && (n == 1 ==> fail[0] != 0)
    requires |rev'| == |rev| && tgt + |fs[n - 1]| <= |rev'| && rev'[..tgt + |fs[n - 1]|] == rev[..tgt] + fs[n - 1]
    ensures Copying(rev', tgt + |fs[n - 1]|, left - |fs[n - 1]|, fail, fs, n - 1)
  {
    ReverseCons(fs, n);
  }

  /** One turn of the loop of move_failed. */
  method CopyOne(rev: array<Byte>, tgt: int, left: nat, fail: seq<Byte>, ghost fs: seq<seq<Byte>>, ghost n: nat)
      returns (l: nat)
    requires Copying(rev[..], tgt, left, fail, fs, n) && 0 < left
    modifies rev
    ensures 0 < n && 0 < l && Copying(rev[..], tgt + l, left - l, fail, fs, n - 1)
  {
    TurnFinds(fail, fs, n);
    var src := MemRChr(fail, left) + 1;
    l := StrLen(fail, src) + 1;
    ghost var was := rev[..];
    assert was[..tgt] == rev[..tgt];
    assert fail[src..src + l] == fs[n - 1];
    MemCpy(rev, tgt, fail[src..src + l]);
    assert rev[..][..tgt + l] == rev[..tgt + l];
    CopyingStep(was, rev[..], tgt, left, fail, fs, n);
  }

  /** The loop of move_failed: `fail` is copied record by record, last one first.
      It ends in the "internal error" exit exactly when the first record of
      `fail` is empty. */
  method Reversed(fail: seq<Byte>) returns (internalError: bool, rev: array<Byte>)
    requires fail != [] && fail[|fail| - 1] == 0
    ensures fresh(rev) && rev.Length == |fail| + 1
    ensures internalError <==> fail[0] == 0
    ensures !internalError ==> rev[..] == [0] + Flat(Reverse(Split(fail)))
  {
    ghost var fs := Split(fail);
    rev := new Byte[|fail| + 1](i => 0);
    var tgt, left: int := 1, |fail| - 1;
    ghost var n: nat := |fs|;
    assert fs[..n] == fs && Reverse(fs[n..]) == [];
    while left > 0
      invariant Copying(rev[..], tgt, left, fail, fs, n)
      decreases left
    {
      var l := CopyOne(rev, tgt, left, fail, fs, n);
      tgt, left, n := tgt + l, left - l, n - 1;
    }
    Leftover(fail, fs, n);
    internalError := tgt != |fail| + 1;
    if !internalError {
      assert fs[0..] == fs && rev[..] == rev[..tgt];
    }
  }

  /** What the C string functions find in `fail` behind the part still to do. */
  lemma TurnAt(fail: seq<Byte>, rem: seq<Byte>)
    requires rem != [] && rem <= fail && rem[|rem| - 1] == 0
    ensures MemRChr(fail, |rem| - 1) + 1 == LastStart(rem)
    ensures StrLen(fail, LastStart(rem)) + 1 == |rem| - LastStart(rem)
    ensures fail[LastStart(rem)..|rem|] == rem[LastStart(rem)..]
  {
    SameMemRChr(fail, rem, |rem| - 1);
    StrLenAt(fail, LastStart(rem), |rem| - 1);
  }

  /** One turn of the loop takes the last of the n records that are left. */
  lemma Shrink(fail: seq<Byte>, fs: seq<seq<Byte>>, n: nat)
    requires AllRecs(fs) && n <= |fs| && Flat(fs[..n]) <= fail && 1 < |Flat(fs[..n])|
    ensures 0 < n && LastStart(Flat(fs[..n])) == |Flat(fs[..n - 1])|
    ensures Flat(fs[..n]) == Flat(fs[..n - 1]) + fs[n - 1] && Flat(fs[..n - 1]) <= fail
    ensures n == 1 ==> fail[0] != 0
    ensures Flat(fs[..n])[|Flat(fs[..n])| - 1] == 0
  {
    assert fs[..n][..n - 1] == fs[..n - 1];
    FlatEnds(fs[..n - 1]);
    FlatEnds(fs[..n]);
    LastIs(Flat(fs[..n - 1]), fs[n - 1]);
    if n == 1 {
      assert fs[..0] == [];
      assert Flat(fs[..1]) == fs[0] && IsRec(fs[0]);
    }
  }

  lemma SameMemRChr(a: seq<Byte>, b: seq<Byte>, n: nat)
    requires n <= |b| && b <= a
    ensures MemRChr(a, n) == MemRChr(b, n)
  {
  }

  lemma ReverseCons(fs: seq<seq<Byte>>, n: nat)
    requires 0 < n <= |fs|
    ensures Flat(Reverse(fs[n - 1..])) == Flat(Reverse(fs[n..])) + fs[n - 1]
  {
    var a, b := Reverse(fs[n - 1..]), Reverse(fs[n..]);
    assert a == b + [fs[n - 1]];
    assert a[..|a| - 1] == b;
  }

  /** A single byte left over is an empty first record. */
  lemma Leftover(fail: seq<Byte>, fs: seq<seq<Byte>>, n: nat)
    requires AllRecs(fs) && n <= |fs| && fail != []
    requires Flat(fs[..n]) <= fail
    ensures |Flat(fs[..n])| == 0 <==> n == 0
    ensures |Flat(fs[..n])| == 1 ==> fail[0] == 0
  {
  }
}
