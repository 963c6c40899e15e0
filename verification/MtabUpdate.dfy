/** update_mtab: the old table is copied with one line replaced or one appended. */
module MtabUpdate {
  import opened Basics

  datatype Ent = Ent(fsname: string, dir: string, kind: string, opts: string)

  /** A line of the file: its length, and its entry unless it is a comment. */
  datatype Line = Line(len: nat, ent: Option<Ent>)

  ghost predicate LinesOk(lines: seq<Line>) {
    forall i :: 0 <= i < |lines| ==> 0 < lines[i].len
  }

  /** The entries, in the order of the file. */
  function Ents(lines: seq<Line>): seq<Ent> {
    if lines == [] then []
    else
      var n := |lines| - 1;
      Ents(lines[..n]) + if lines[n].ent.Some? then [lines[n].ent.value] else []
  }

  /** The last entry for a mount point, or -1. */
  function LastMatch(es: seq<Ent>, dir: string): (k: int)
    ensures -1 <= k < |es| && (0 <= k ==> es[k].dir == dir)
    ensures forall i :: k < i < |es| ==> es[i].dir != dir
  {
    if es == [] then -1
    else if es[|es| - 1].dir == dir then |es| - 1
    else LastMatch(es[..|es| - 1], dir)
  }

  /** A change of the table: a mount adds its entry, a remount replaces the last
      one for the mount point, if there is one. */
  datatype Update = Update(mntpnt: string, remount: bool, ent: Ent)

  function Applied(u: Update, es: seq<Ent>): seq<Ent> {
    var k := LastMatch(es, u.mntpnt);
    if u.remount && 0 <= k then es[k := u.ent] else es + [u.ent]
  }

  /** Entry i is the last one for the mount point. */
  ghost predicate LastFor(es: seq<Ent>, mntpnt: string, i: nat) {
    i < |es| && es[i].dir == mntpnt && forall j :: i < j < |es| ==> es[j].dir != mntpnt
  }

  /** The table es becomes es' by the update: a mount leaves all entries there are
      and adds one behind them; a remount replaces the last entry for the mount
      point in its place, and is a mount when there is none. */
  ghost predicate Changed(u: Update, es: seq<Ent>, es': seq<Ent>) {
    && (!u.remount || (forall i :: 0 <= i < |es| ==> es[i].dir != u.mntpnt) ==>
          |es'| == |es| + 1 && es < es' && es'[|es|] == u.ent)
    && (forall i: nat :: u.remount && LastFor(es, u.mntpnt, i) ==>
          |es'| == |es| && es'[i] == u.ent && forall j :: 0 <= j < |es| && j != i ==> es'[j] == es[j])
  }

  /** For every table just one is what the update makes of it. */
  lemma AppliedIff(u: Update, es: seq<Ent>, es': seq<Ent>)
    ensures Changed(u, es, es') <==> es' == Applied(u, es)
  {
    var k := LastMatch(es, u.mntpnt);
    if 0 <= k {
      assert LastFor(es, u.mntpnt, k);
    }
    if Changed(u, es, es') && !(u.remount && 0 <= k) {
      assert es' == es'[..|es|] + [es'[|es|]];
    }
  }

  /** Bytes in the first i lines: what ftell says behind them. */
  function Tell(lines: seq<Line>, i: nat): nat
    requires i <= |lines|
  {
    if i == 0 then 0 else Tell(lines, i - 1) + lines[i - 1].len
  }

  lemma TellMono(lines: seq<Line>, i: nat, j: nat)
    requires LinesOk(lines) && i < j <= |lines|
    ensures Tell(lines, i) < Tell(lines, j)
  {
  }

  /** Between two positions there are only comments. */
  ghost predicate Comments(lines: seq<Line>, i: nat, j: nat)
    requires j <= |lines|
  {
    forall k :: i <= k < j ==> lines[k].ent.None?
  }

  lemma {:induction false} SkipComments(lines: seq<Line>, i: nat, j: nat)
    requires i <= j <= |lines| && Comments(lines, i, j)
    ensures Ents(lines[..j]) == Ents(lines[..i])
    decreases j
  {
    if i < j {
      SkipComments(lines, i, j - 1);
      assert lines[..j][..j - 1] == lines[..j - 1];
    }
  }

  /** The stream that getmntent reads. */
  class Stream {
    const lines: seq<Line>
    var at: nat   // the line to be read next
    var pos: nat  // ftell

    constructor (lines: seq<Line>)
      ensures this.lines == lines && Valid() && at == 0
    {
      this.lines, at, pos := lines, 0, 0;
    }

    ghost predicate Valid()
      reads this
    {
      at <= |lines| && pos == Tell(lines, at)
    }

    method Rewind()
      modifies this
      ensures Valid() && at == 0
    {
      at, pos := 0, 0;
    }

    /** getmntent: the next entry; comments are passed over. */
    method GetMntEnt() returns (p: Option<Ent>)
      requires Valid()
      modifies this
      ensures Valid() && old(at) <= at
      ensures p.None? ==> at == |lines| && Comments(lines, old(at), at)
      ensures p.Some? ==> old(at) < at && lines[at - 1].ent == p && Comments(lines, old(at), at - 1)
      ensures Ents(lines[..at]) == Ents(lines[..old(at)]) + if p.Some? then [p.value] else []
    {
      ghost var at0 := at;
      while at < |lines|
        invariant at0 <= at <= |lines| && Valid() && Comments(lines, at0, at)
        decreases |lines| - at
      {
        at, pos := at + 1, pos + lines[at].len;
        if lines[at - 1].ent.Some? {
          SkipComments(lines, at0, at - 1);
          assert lines[..at][..at - 1] == lines[..at - 1];
          return lines[at - 1].ent;
        }
      }
      SkipComments(lines, at0, at);
      p := None;
    }
  }

  /** append_mtab */
  method Append(ofp: Stream, ent: Ent) returns (fp: seq<Ent>)
    requires ofp.Valid() && ofp.at == 0
    modifies ofp
    ensures fp == Ents(ofp.lines) + [ent]
  {
    fp := [];
    var p := ofp.GetMntEnt();
    while p.Some?
      invariant ofp.Valid() && (p.None? ==> ofp.at == |ofp.lines|)
      invariant Ents(ofp.lines[..ofp.at]) == fp + if p.Some? then [p.value] else []
      decreases |ofp.lines| - ofp.at, p.Some?
    {
      fp := fp + [p.value];
      p := ofp.GetMntEnt();
    }
    assert ofp.lines[..ofp.at] == ofp.lines;
    fp := fp + [ent];
  }

  /** The first pass: the position behind the last line for the mount point. */
  method FindLast(ofp: Stream, mntpnt: string) returns (pos: int)
    requires ofp.Valid() && ofp.at == 0 && LinesOk(ofp.lines)
    modifies ofp
    ensures ofp.Valid()
    ensures pos == -1 <==> LastMatch(Ents(ofp.lines), mntpnt) < 0
    ensures pos != -1 ==> IsLast(ofp.lines, mntpnt, pos)
  {
    pos := -1;
    ghost var line := -1;
    var p := ofp.GetMntEnt();
    while p.Some?
      invariant ofp.Valid() && -1 <= line < |ofp.lines| && (p.None? ==> ofp.at == |ofp.lines|)
      invariant p.Some? ==> 0 < ofp.at && ofp.lines[ofp.at - 1].ent == p && line < ofp.at - 1
      invariant p.None? ==> line < ofp.at
      invariant pos == -1 <==> line == -1
      invariant 0 <= line ==> Matches(ofp.lines, line, mntpnt) && pos == Tell(ofp.lines, line + 1)
      invariant forall k :: line < k < (if p.Some? then ofp.at - 1 else ofp.at) ==> !Matches(ofp.lines, k, mntpnt)
      decreases |ofp.lines| - ofp.at, p.Some?
    {
      if p.value.dir == mntpnt {
        pos := ofp.pos;
        line := ofp.at - 1;
      }
      p := ofp.GetMntEnt();
    }
    LineOfMatch(ofp.lines, mntpnt, line);
  }

  ghost predicate Matches(lines: seq<Line>, k: int, mntpnt: string) {
    0 <= k < |lines| && lines[k].ent.Some? && lines[k].ent.value.dir == mntpnt
  }

  /** pos is the end of the last line that matches. */
  ghost predicate IsLast(lines: seq<Line>, mntpnt: string, pos: int) {
    exists line :: 0 <= line < |lines| && Matches(lines, line, mntpnt) && pos == Tell(lines, line + 1)
      && LastMatch(Ents(lines), mntpnt) == |Ents(lines[..line])|
  }

  lemma {:induction false} LineOfMatch(lines: seq<Line>, mntpnt: string, line: int)
    requires -1 <= line < |lines| && forall k :: line < k < |lines| ==> !Matches(lines, k, mntpnt)
    requires 0 <= line ==> Matches(lines, line, mntpnt)
    ensures LastMatch(Ents(lines), mntpnt) == if line < 0 then -1 else |Ents(lines[..line])|
    decreases |lines|
  {
    if lines != [] {
      var n := |lines| - 1;
      if line < n {
        forall k | line < k < n ensures !Matches(lines[..n], k, mntpnt) {
          assert !Matches(lines, k, mntpnt);
        }
        LineOfMatch(lines[..n], mntpnt, line);
        assert 0 <= line ==> lines[..n][..line] == lines[..line];
        assert !Matches(lines, n, mntpnt);
        var es := Ents(lines[..n]);
        if lines[n].ent.Some? {
          assert (es + [lines[n].ent.value])[..|es|] == es;
        }
      }
    }
  }

  /** The entries as the second pass writes them: the one of line `line` replaced. */
  ghost function Replaced(lines: seq<Line>, line: nat, ent: Ent, i: nat): seq<Ent>
    requires i <= |lines|
  {
    if i == 0 then [] else Replaced(lines, line, ent, i - 1) + Written(lines, line, ent, i - 1)
  }

  ghost function Written(lines: seq<Line>, line: nat, ent: Ent, i: nat): seq<Ent>
    requires i < |lines|
  {
    if lines[i].ent.None? then [] else if i == line then [ent] else [lines[i].ent.value]
  }

  lemma {:induction false} ReplacedIs(lines: seq<Line>, line: nat, ent: Ent, i: nat)
    requires i <= |lines| && line < |lines| && lines[line].ent.Some?
    ensures |Replaced(lines, line, ent, i)| == |Ents(lines[..i])|
    ensures i <= line ==> Replaced(lines, line, ent, i) == Ents(lines[..i])
    ensures line < i ==> |Ents(lines[..line])| < |Ents(lines[..i])|
    ensures line < i ==> Replaced(lines, line, ent, i) == Ents(lines[..i])[|Ents(lines[..line])| := ent]
  {
    if 0 < i {
      ReplacedIs(lines, line, ent, i - 1);
      assert lines[..i][..i - 1] == lines[..i - 1];
    }
  }

  lemma {:induction false} ReplacedSkip(lines: seq<Line>, line: nat, ent: Ent, i: nat, j: nat)
    requires i <= j <= |lines| && Comments(lines, i, j)
    ensures Replaced(lines, line, ent, j) == Replaced(lines, line, ent, i)
    decreases j
  {
    if i < j { ReplacedSkip(lines, line, ent, i, j - 1); }
  }

  /** The second pass. It meets the position that the first one found. */
  method Replace(ofp: Stream, pos0: int, ent: Ent, ghost line: nat) returns (internalError: bool, fp: seq<Ent>)
    requires ofp.Valid() && ofp.at == 0 && LinesOk(ofp.lines)
    requires line < |ofp.lines| && ofp.lines[line].ent.Some? && pos0 == Tell(ofp.lines, line + 1)
    modifies ofp
    ensures !internalError && fp == Replaced(ofp.lines, line, ent, |ofp.lines|)
  {
    var pos := pos0;
    fp := [];
    TellMono(ofp.lines, 0, line + 1);
    var p := ofp.GetMntEnt();
    ReplacedSkip(ofp.lines, line, ent, 0, Behind(ofp, p));
    while p.Some?
      invariant Replacing(ofp, p, fp, pos, pos0, ent, line)
      decreases |ofp.lines| - ofp.at, p.Some?
    {
      p, fp, pos := ReplaceOne(ofp, p.value, fp, pos, pos0, ent, line);
    }
    internalError := pos > 0;
  }

  /** The lines that the copy is done with while the entry p is in hand. */
  ghost function Behind(ofp: Stream, p: Option<Ent>): int
    reads ofp
  {
    if p.Some? then ofp.at - 1 else ofp.at
  }

  ghost predicate Replacing(ofp: Stream, p: Option<Ent>, fp: seq<Ent>, pos: int, pos0: int, ent: Ent, line: nat)
    reads ofp
  {
    && ofp.Valid()
    && (p.None? ==> ofp.at == |ofp.lines|)
    && (p.Some? ==> 0 < ofp.at && ofp.lines[ofp.at - 1].ent == p)
    && fp == Replaced(ofp.lines, line, ent, Behind(ofp, p))
    && pos == (if line < Behind(ofp, p) then -1 else pos0)
  }

  /** One turn of the second pass. */
  method ReplaceOne(ofp: Stream, p0: Ent, fp0: seq<Ent>, pos1: int, pos0: int, ent: Ent, ghost line: nat)
    returns (p: Option<Ent>, fp: seq<Ent>, pos: int)
    requires Replacing(ofp, Some(p0), fp0, pos1, pos0, ent, line) && LinesOk(ofp.lines)
    requires line < |ofp.lines| && ofp.lines[line].ent.Some? && pos0 == Tell(ofp.lines, line + 1)
    modifies ofp
    ensures Replacing(ofp, p, fp, pos, pos0, ent, line)
    ensures old(ofp.at) < ofp.at || (old(ofp.at) == ofp.at && p.None?)
  {
    ghost var at := ofp.at;
    TellAt(ofp.lines, at, line + 1);
    TellAt(ofp.lines, 0, at);
    pos := pos1;
    var q := p0;
    if ofp.pos == pos {
      q := ent;
      pos := -1;
    }
    fp := fp0 + [q];
    assert fp == Replaced(ofp.lines, line, ent, at);
    p := ofp.GetMntEnt();
    assert forall k :: at <= k < Behind(ofp, p) ==> ofp.lines[k].ent.None?;
    ReplacedSkip(ofp.lines, line, ent, at, Behind(ofp, p));
    assert line < Behind(ofp, p) ==> line < at;
  }

  /** A position names one line. */
  lemma TellAt(lines: seq<Line>, i: nat, j: nat)
    requires LinesOk(lines) && i <= |lines| && j <= |lines|
    ensures Tell(lines, i) == Tell(lines, j) <==> i == j
  {
    if i < j { TellMono(lines, i, j); } else if j < i { TellMono(lines, j, i); }
  }

  /** update_mtab: what is written to the new file; the "internal error" exit is
      never taken. */
  method UpdateMtab(lines: seq<Line>, u: Update) returns (internalError: bool, fp: seq<Ent>)
    requires LinesOk(lines)
    ensures !internalError && fp == Applied(u, Ents(lines)) && Changed(u, Ents(lines), fp)
  {
    AppliedIff(u, Ents(lines), Applied(u, Ents(lines)));
    var ofp := new Stream(lines);
    internalError := false;
    if u.remount {
      var pos := FindLast(ofp, u.mntpnt);
      ofp.Rewind();
      if pos > 0 {
        ghost var line :| 0 <= line < |lines| && Matches(lines, line, u.mntpnt) && pos == Tell(lines, line + 1)
          && LastMatch(Ents(lines), u.mntpnt) == |Ents(lines[..line])|;
        internalError, fp := Replace(ofp, pos, u.ent, line);
        ReplacedIs(lines, line, u.ent, |lines|);
        assert lines[..|lines|] == lines;
      } else {
        if pos != -1 { Positive(lines, u.mntpnt, pos); }
        fp := Append(ofp, u.ent);
      }
    } else {
      fp := Append(ofp, u.ent);
    }
  }

  /** The end of a line is never position 0. */
  lemma Positive(lines: seq<Line>, mntpnt: string, pos: int)
    requires LinesOk(lines) && IsLast(lines, mntpnt, pos)
    ensures 0 < pos
  {
  }
}
