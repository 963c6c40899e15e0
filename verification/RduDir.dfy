/**
  readdir on an aufs directory: the buffer is filled at the start of a scan and
  then handed out entry by entry; the position lives in the DIR itself.
  */
module RduDir {
  import opened Basics
  import opened RduNames
  import opened RduCompact
  import opened RduMerge
  import opened RduInit

  datatype Dirent = Dirent(name: Name, off: nat, reclen: nat)

  // ---- what the kernel returns is a packed buffer

  /** One record for each name. */
  ghost predicate RecordsOf(records: seq<seq<Byte>>, names: seq<Name>) {
    && |records| == |names|
    && forall i :: 0 <= i < |names| ==> |records[i]| == RecLen(|names[i]|) && RecordAt(records[i], 0, names[i])
  }

  lemma {:induction false} LengthOfConcat(records: seq<seq<Byte>>, names: seq<Name>, i: nat)
    requires RecordsOf(records, names) && i <= |names|
    ensures |Concat(records[..i])| == OffAt(names, i)
  {
    if 0 < i {
      LengthOfConcat(records, names, i - 1);
      assert records[..i][..i - 1] == records[..i - 1];
    }
  }

  /** Record i stands in the concatenation where the packing puts it. */
  lemma RecordInConcat(records: seq<seq<Byte>>, names: seq<Name>, i: nat)
    requires RecordsOf(records, names) && i < |names|
    ensures Same(Concat(records), OffAt(names, i), records[i], 0, RecLen(|names[i]|))
  {
    Cut(records, i);
    LengthOfConcat(records, names, i);
    Middle(Concat(records[..i]), records[i], Concat(records[i + 1..]));
  }

  lemma {:induction false} Cut(records: seq<seq<Byte>>, i: nat)
    requires i < |records|
    ensures Concat(records) == Concat(records[..i]) + records[i] + Concat(records[i + 1..])
  {
    var a, b := records[..i + 1], records[i + 1..];
    assert Concat(records) == Concat(a) + Concat(b) by {
      ConcatSplit(a, b);
      assert a + b == records;
    }
    assert a[..|a| - 1] == records[..i];
  }

  lemma Middle(head: seq<Byte>, r: seq<Byte>, tail: seq<Byte>)
    ensures Same(head + r + tail, |head|, r, 0, |r|)
  {
  }

  lemma GotIsPacked(bytes: seq<Byte>, records: seq<seq<Byte>>, names: seq<Name>)
    requires RecordsOf(records, names) && Got(bytes, records, |records|)
    ensures Packed(bytes, names)
  {
    assert records[..|records|] == records;
    LengthOfConcat(records, names, |names|);
    var c := Concat(records);
    forall i | 0 <= i < |names| ensures IsRecord(bytes, names, i) {
      RecordInConcat(records, names, i);
      var o, l := OffAt(names, i), RecLen(|names[i]|);
      SubSlice(bytes, 0, |c|, o, l);
      assert Same(bytes, o, records[i], 0, l);
      SliceRecord(bytes, o, records[i], 0, names[i]);
    }
  }

  // ---- a scan, seen from outside

  /** The position in the DIR, and the entries of the last rdu_init. */
  datatype Cursor = Cursor(cell: nat, shown: seq<Name>)

  /** One readdir while the directory shows `listing`. */
  function Next(c: Cursor, listing: seq<Name>): (Cursor, Option<Name>) {
    var shown := if c.cell == 0 || c.shown == [] then listing else c.shown;
    (Cursor(c.cell + 1, shown), if c.cell < |shown| then Some(shown[c.cell]) else None)
  }

  /** What a caller gets for the entry at a position. */
  function DirentAt(shown: seq<Name>, pos: nat): Option<Dirent> {
    if pos < |shown| then Some(Dirent(shown[pos], pos, RecLen(|shown[pos]|))) else None
  }

  /** Its offset leads back to it: readdir after a seek to d_off returns it again, and
      so does a scan from the start of an unchanged directory. */
  lemma OffsetIs(shown: seq<Name>, pos: nat, listing: seq<Name>)
    requires DirentAt(shown, pos).Some? && (pos == 0 ==> listing == shown)
    ensures var de := DirentAt(shown, pos).value;
      Next(Cursor(de.off, shown), listing).1 == Some(de.name) && DirentAt(shown, de.off) == Some(de)
  {
  }

  /** The answers of calls in a row, while the directory shows one listing after
      the other, and the cursor behind them. */
  function Calls(c: Cursor, listings: seq<seq<Name>>): (r: seq<Option<Name>>)
    ensures |r| == |listings|
    decreases |listings|
  {
    if listings == [] then [] else [Next(c, listings[0]).1] + Calls(Next(c, listings[0]).0, listings[1..])
  }

  function After(c: Cursor, listings: seq<seq<Name>>): Cursor
    decreases |listings|
  {
    if listings == [] then c else After(Next(c, listings[0]).0, listings[1..])
  }

  function EntryAt(shown: seq<Name>, i: nat): Option<Name> {
    if i < |shown| then Some(shown[i]) else None
  }

  /** Away from position 0 what the directory shows meanwhile does not matter. */
  lemma {:induction false} CallsFrom(c: Cursor, listings: seq<seq<Name>>, i: nat)
    requires i < |listings| && 0 < c.cell && (c.shown != [] || forall j :: 0 <= j < |listings| ==> listings[j] == [])
    ensures Calls(c, listings)[i] == EntryAt(c.shown, c.cell + i)
    ensures After(c, listings) == Cursor(c.cell + |listings|, c.shown)
    decreases |listings|
  {
    if 1 < |listings| {
      CallsFrom(Next(c, listings[0]).0, listings[1..], if 0 < i then i - 1 else 0);
    }
  }

  /** After a rewind a scan returns every entry that the first call found exactly once,
      in the order of the merge, and then the end of the directory for ever, however
      the directory changes in between; each call moves the position by one. A
      directory that showed nothing is read again. */
  lemma ScanOnce(left: seq<Name>, listings: seq<seq<Name>>)
    requires listings != []
    requires listings[0] != [] || forall j :: 0 <= j < |listings| ==> listings[j] == []
    ensures var answers := Calls(Cursor(0, left), listings);
      forall i :: 0 <= i < |listings| ==> answers[i] == EntryAt(listings[0], i)
    ensures After(Cursor(0, left), listings) == Cursor(|listings|, listings[0])
  {
    var c := Next(Cursor(0, left), listings[0]).0;
    if 1 < |listings| { CallsFrom(c, listings[1..], 0); }
    forall i | 0 < i < |listings| ensures Calls(Cursor(0, left), listings)[i] == EntryAt(listings[0], i) {
      CallsFrom(c, listings[1..], i - 1);
    }
  }

  /** strcpy(3) out of the buffer. */
  method StrCpy(mem: array<Byte>, o: nat, ghost n: Name) returns (name: Name)
    requires RecordAt(mem[..], o, n)
    ensures name == n
  {
    name := [];
    var i := o + NAME;
    assert forall k :: 0 <= k < |n| ==> mem[o + NAME + k] == mem[..][o + NAME..o + NAME + |n|][k] == n[k];
    while mem[i] != 0
      invariant i == o + NAME + |name| <= o + NAME + |n| && name == n[..|name|]
      decreases |n| - |name|
    {
      name := name + [mem[i]];
      i := i + 1;
    }
  }

  /** When rdu_readdir does not follow a null `pos`: it starts afresh, or is behind
      the last entry, or the pointers are there. */
  predicate Safe(cell: nat, npos: nat, present: bool) {
    cell == 0 || npos == 0 || npos <= cell || present
  }

  /** A DIR on aufs with its struct rdu. `rdu` is null while pos is; npos is kept
      beside it, for rdu_free and rdu_new leave that as it is. */
  class Dir {
    var cell: nat
    var base: nat
    var buf: array<Byte>
    var npos: nat
    var rdu: Rdu?
    ghost var shown: seq<Name>

    /** A buffer as rdu_buf_lock hands it out, new or taken over. */
    constructor (npos: nat)
      ensures Valid() && Abs() == Cursor(0, []) && buf.Length == 8192 && fresh(buf)
      ensures this.npos == npos && rdu == null
    {
      cell, base, buf, rdu, shown := 0, 0, new Byte[8192](i => 0), null, [];
      this.npos := npos;
    }

    ghost predicate Valid()
      reads this, rdu, if rdu == null then {} else {rdu.mem as object, rdu.pos as object}
    {
      if rdu == null then shown == []
      else
        && rdu.npos == npos == |shown| <= rdu.pos.Length
        && Packed(rdu.mem[..], shown) && rdu.pos[..rdu.npos] == Starts(shown)
    }

    ghost function Abs(): Cursor
      reads this
    {
      Cursor(cell, shown)
    }

    /** rdu_init; on failure the buffer is given up, as rdu_free does, but npos
        counts what was fetched. */
    method Init(kernel: Kernel, ghost names: seq<Name>, shwh: bool, blk: nat, luck: Luck) returns (err: bool)
      requires RecordsOf(kernel.rest, names)
      requires Fit(kernel.rest, blk) && Fit(kernel.rest, buf.Length)
      modifies this`base, this`buf, this`npos, this`rdu, this`shown, kernel, buf
      ensures Valid() && (buf == old(buf) || fresh(buf))
      ensures !err ==> rdu != null && fresh(rdu) && shown == Visible(names, shwh)
      ensures err ==> rdu == null && npos <= |names| && shown == [] && Misfortune(luck)
    {
      ghost var records := kernel.rest;
      err, npos, base, buf := Grow(kernel, base, buf, blk, luck);
      if err {
        rdu, shown := null, [];
        return;
      }
      GotIsPacked(buf[..], records, names);
      var p := new Rdu(buf, npos, shwh);
      p.Merge(names);
      rdu, npos, shown := p, p.npos, Visible(names, shwh);
    }

    /** rdu_pos */
    method Pos(pos: nat) returns (de: Option<Dirent>)
      requires Valid() && (rdu == null ==> npos <= pos)
      ensures de == DirentAt(shown, pos)
    {
      if pos < npos {
        assert IsRecord(rdu.mem[..], shown, pos);
        var o := rdu.pos[pos];
        assert o == rdu.pos[..rdu.npos][pos] == OffAt(shown, pos);
        var name := StrCpy(rdu.mem, o, shown[pos]);
        return Some(Dirent(name, pos, RecLen(rdu.mem[o + NLEN])));
      }
      return None;
    }

    /** The directory is read at position 0, and when nothing is there. */
    method Refresh(kernel: Kernel, ghost names: seq<Name>, shwh: bool, blk: nat, luck: Luck) returns (err: bool)
      requires Valid() && RecordsOf(kernel.rest, names)
      requires Fit(kernel.rest, blk) && Fit(kernel.rest, buf.Length)
      modifies this`base, this`buf, this`npos, this`rdu, this`shown, kernel, buf
      ensures Valid()
      ensures err ==> rdu == null && npos <= |names| && Misfortune(luck) && (cell == 0 || old(npos) == 0)
      ensures !err ==> if cell == 0 || old(npos) == 0 then rdu != null && shown == Visible(names, shwh)
                       else rdu == old(rdu) && npos == old(npos) && shown == old(shown)
    {
      err := false;
      if cell == 0 || npos == 0 {
        err := Init(kernel, names, shwh, blk, luck);
      }
    }

    /** rdu_readdir on aufs. `kernel` stands for the state of the directory, in
        case it has to be read; `crash` is the use of a null pos. */
    method ReadDir(kernel: Kernel, ghost names: seq<Name>, shwh: bool, blk: nat, luck: Luck)
      returns (crash: bool, err: bool, de: Option<Dirent>)
      requires Valid() && RecordsOf(kernel.rest, names)
      requires Fit(kernel.rest, blk) && Fit(kernel.rest, buf.Length)
      modifies this, kernel, buf
      ensures Valid() && (!crash <==> Safe(old(cell), old(npos), old(rdu) != null))
      ensures !crash && !err && (old(cell) == 0 || old(npos) == 0 || old(rdu) != null) ==>
        && Abs() == Next(old(Abs()), Visible(names, shwh)).0 && de == DirentAt(shown, old(cell))
        && Next(old(Abs()), Visible(names, shwh)).1 == (if de.Some? then Some(de.value.name) else None)
      ensures old(rdu) == null && 0 < old(npos) <= old(cell) ==>
        !err && de == None && Abs() == Cursor(old(cell) + 1, [])
      ensures err ==> de == None && cell == old(cell) && rdu == null && npos <= |names| && Misfortune(luck)
    {
      crash, de := false, None;
      var pos := cell;
      err := Refresh(kernel, names, shwh, blk, luck);
      if err {
        return;
      }
      if rdu == null && pos < npos {
        crash := true;
        return;
      }
      de := Pos(pos);
      cell := pos + 1;
    }

    /** rewinddir(3) */
    method Rewind()
      requires Valid()
      modifies this`cell
      ensures Valid() && Abs() == Cursor(0, old(shown)) && Safe(cell, npos, rdu != null)
    {
      cell := 0;
    }

    /** seekdir(3) */
    method Seek(pos: nat)
      requires Valid()
      modifies this`cell
      ensures Valid() && Abs() == Cursor(pos, old(shown))
    {
      cell := pos;
    }
  }
}
