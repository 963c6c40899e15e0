/**
  Moving files down: the child process takes records off the list until a file
  has been moved, a resource runs out or it is told to stop, and keeps the busy
  ones for later. Given that close, fstat, ftruncate and write succeed.
  */
module FhsmMvdown {
  import opened Basics
  import opened FhsmList

  /** What the AUFS_CTL_MVDOWN ioctl, and the open before it, made of one file. */
  datatype Attempt =
    | NotOpened(noent: bool)
    | MovedDown
    | OnLower                // EROFS: the name exists on the lower branch
    | Busy(single: bool)     // EBUSY; `single` when it has one hard link
    | Invalid                // EINVAL
    | OtherError             // ENOSPC and the rest

  /** do_mvdown1 returned an error. */
  predicate Errs(a: Attempt) { a == NotOpened(false) || a.OtherError? }

  /** do_mvdown1 said done: the file needs no more work. EROFS counts as done. */
  predicate IsDone(a: Attempt) { a.NotOpened? || a.MovedDown? || a.OnLower? }

  datatype Rc = Fatal | Error | Skipped | Completed

  /** The list and the failed file, byte by byte. */
  datatype Files = Files(list: seq<Byte>, fail: seq<Byte>)

  /** No byte, or a NUL behind the last record. */
  predicate Terminated(s: seq<Byte>) {
    s == [] || s[|s| - 1] == 0
  }

  function Top(list: seq<Byte>): seq<Byte>
    requires list != []
  {
    list[LastStart(list)..]
  }

  function Below(list: seq<Byte>): seq<Byte>
    requires list != []
  {
    list[..LastStart(list)]
  }

  /** One call of do_mvdown. */
  function Turn(s: Files, a: Attempt): (Files, Rc)
    requires s.list != []
  {
    if !WellFormed(Top(s.list)) then (s, Fatal)
    else if Errs(a) then (s, Error)
    else
      (Files(Below(s.list), if a == Busy(true) then s.fail + Top(s.list) else s.fail),
       if Below(s.list) != [] && !IsDone(a) then Skipped else Completed)
  }

  /** A run of the loop of mvdown_child: it goes on only after a skipped file. */
  ghost predicate Runs(s: Files, attempts: seq<Attempt>, s': Files)
    decreases |attempts|
  {
    if attempts == [] then s' == s
    else
      && s.list != []
      && var (s1, rc) := Turn(s, attempts[0]);
         if |attempts| == 1 then s' == s1 else rc == Skipped && Runs(s1, attempts[1..], s')
  }

  /** The records taken off the list, in this order. */
  ghost function Popped(s: Files, attempts: seq<Attempt>): seq<seq<Byte>>
    decreases |attempts|
  {
    if attempts == [] || s.list == [] || Turn(s, attempts[0]).1 in {Fatal, Error} then []
    else [Top(s.list)] + Popped(Turn(s, attempts[0]).0, attempts[1..])
  }

  /** Those of them that were busy with a single link. */
  ghost function Again(s: Files, attempts: seq<Attempt>): seq<seq<Byte>>
    decreases |attempts|
  {
    if attempts == [] || s.list == [] || Turn(s, attempts[0]).1 in {Fatal, Error} then []
    else (if attempts[0] == Busy(true) then [Top(s.list)] else []) + Again(Turn(s, attempts[0]).0, attempts[1..])
  }

  lemma FlatOne(r: seq<Byte>)
    ensures Flat([r]) == r
  {
  }

  lemma {:induction false} ReverseAppend(r: seq<Byte>, rs: seq<seq<Byte>>)
    ensures Flat(Reverse([r] + rs)) == Flat(Reverse(rs)) + r
  {
    assert Reverse([r] + rs) == Reverse(rs) + [r];
    FlatAppend(Reverse(rs), [r]);
    FlatOne(r);
  }

  lemma PoppedStep(s: Files, s1: Files, s': Files, r: seq<Byte>, popped: seq<seq<Byte>>)
    requires s.list == s1.list + r && s1.list == s'.list + Flat(Reverse(popped))
    ensures s.list == s'.list + Flat(Reverse([r] + popped))
  {
    ReverseAppend(r, popped);
  }

  lemma AgainStep(fail: seq<Byte>, fail1: seq<Byte>, fail': seq<Byte>, r: seq<seq<Byte>>, again: seq<seq<Byte>>)
    requires fail1 == fail + Flat(r) && fail' == fail1 + Flat(again)
    ensures fail' == fail + Flat(r + again)
  {
    FlatAppend(r, again);
  }

  lemma TopBelow(list: seq<Byte>)
    requires list != []
    ensures list == Below(list) + Top(list)
  {
  }

  lemma TurnSplits(s: Files, a: Attempt)
    requires s.list != [] && Turn(s, a).1 !in {Fatal, Error}
    ensures s.list == Turn(s, a).0.list + Top(s.list)
    ensures Turn(s, a).0.fail == s.fail + Flat(if a == Busy(true) then [Top(s.list)] else [])
  {
    TopBelow(s.list);
    FlatOne(Top(s.list));
    assert s.fail + [] == s.fail;
  }

  /** No work is lost and none is invented: what left the list is what was
      taken off it, the failed file grows by the busy ones ... */
  lemma {:induction false} Conserved(s: Files, attempts: seq<Attempt>, s': Files)
    requires Runs(s, attempts, s')
    ensures s.list == s'.list + Flat(Reverse(Popped(s, attempts)))
    ensures s'.fail == s.fail + Flat(Again(s, attempts))
    decreases |attempts|
  {
    if attempts != [] {
      var (s1, rc) := Turn(s, attempts[0]);
      var rest, r := attempts[1..], Top(s.list);
      if rc !in {Fatal, Error} {
        TurnSplits(s, attempts[0]);
        Conserved(s1, rest, s');
        PoppedStep(s, s1, s', r, Popped(s1, rest));
        AgainStep(s.fail, s1.fail, s'.fail, if attempts[0] == Busy(true) then [r] else [], Again(s1, rest));
      }
    }
  }

  /** ... and only the last attempt of a run can have finished a file or failed,
      so the list got shorter by a record for each attempt but perhaps that one. */
  lemma {:induction false} LastOnly(s: Files, attempts: seq<Attempt>, s': Files)
    requires Runs(s, attempts, s')
    ensures forall i :: 0 <= i < |attempts| - 1 ==> !IsDone(attempts[i]) && !Errs(attempts[i])
    ensures |s'.list| + |Popped(s, attempts)| <= |s.list|
    ensures |Popped(s, attempts)| <= |attempts| <= |Popped(s, attempts)| + 1
    decreases |attempts|
  {
    if attempts != [] {
      var (s1, rc) := Turn(s, attempts[0]);
      if 1 < |attempts| {
        LastOnly(s1, attempts[1..], s');
      }
    }
  }

  /** A run goes on just behind a busy or an invalid file with something left
      below it; not behind one refused with EROFS, nor behind any that is done. */
  lemma GoesOnIff(s: Files, a: Attempt)
    requires s.list != []
    ensures Turn(s, a).1 == Skipped <==> WellFormed(Top(s.list)) && (a.Busy? || a.Invalid?) && Below(s.list) != []
    ensures a.OnLower? ==> Turn(s, a).1 in {Fatal, Completed}
  {
  }

  /** What becomes of the record on top: it stays after an exit or an error, it
      goes to the failed file when it is busy with a single link, else it is dropped. */
  lemma Fate(s: Files, a: Attempt)
    requires s.list != []
    ensures var s1 := Turn(s, a).0;
      var stays := !WellFormed(Top(s.list)) || a.OtherError? || a == NotOpened(false);
      && s.list == s1.list + (if stays then [] else Top(s.list))
      && s1.fail == s.fail + if !stays && a == Busy(true) then Top(s.list) else []
    ensures Turn(s, a).1 == Fatal <==> !WellFormed(Top(s.list))
    ensures Turn(s, a).1 == Error <==> WellFormed(Top(s.list)) && (a.OtherError? || a == NotOpened(false))
  {
    TopBelow(s.list);
    assert s.list + [] == s.list && s.fail + [] == s.fail;
  }

  lemma TurnShrinks(s: Files, a: Attempt)
    requires s.list != []
    ensures Turn(s, a).1 == Fatal ==> Turn(s, a).0.list == s.list && !WellFormed(Top(s.list))
    ensures Turn(s, a).1 == Skipped ==> Turn(s, a).0.list != [] && |Turn(s, a).0.list| < |s.list|
  {
  }

  // ---- records that are tried again

  /** The list with the failed records put back on it. */
  ghost function Retry(list: seq<Byte>, fail: seq<Byte>): seq<Byte>
    requires Terminated(fail)
  {
    list + [0] + Flat(Reverse(Split(fail)))
  }

  /** au_list: the list is generated anew when it is empty, and gets the failed
      records back when it is not. The second result is false for the exit. */
  ghost function Listed(s: Files, gen: seq<Byte>): (Files, bool)
    requires Terminated(s.fail)
  {
    if s.list == [] then (Files(gen, s.fail), true)
    else if s.fail == [] then (s, true)
    else if s.fail[0] == 0 then (s, false)
    else (Files(Retry(s.list, s.fail), []), true)
  }

  /** The retried records come first, in the order in which they failed ... */
  lemma RetriedInOrder(l: seq<Byte>, fs: seq<seq<Byte>>, i: nat)
    requires AllRecs(fs) && i < |fs|
    ensures var list := l + [0] + Flat(Reverse(fs[i..]));
      Top(list) == fs[i] && Below(list) == l + [0] + Flat(Reverse(fs[i + 1..]))
  {
    var list, rest := l + [0] + Flat(Reverse(fs[i..])), Flat(Reverse(fs[i + 1..]));
    assert fs[i..] == [fs[i]] + fs[i + 1..];
    ReverseAppend(fs[i], fs[i + 1..]);
    var head := l + [0] + rest;
    assert list == head + fs[i];
    assert AllRecs(Reverse(fs[i + 1..]));
    FlatEnds(Reverse(fs[i + 1..]));
    assert head[|head| - 1] == 0;
    LastIs(head, fs[i]);
  }

  /** ... and then the byte that move_failed put before them is left over: an
      empty record, on which the child exits. */
  lemma ThenFatal(l: seq<Byte>, a: Attempt, fail: seq<Byte>)
    requires l != [] && l[|l| - 1] == 0
    ensures Top(l + [0]) == [0] && Turn(Files(l + [0], fail), a) == (Files(l + [0], fail), Fatal)
  {
  }

  /** l lies on the list under an empty record. */
  ghost predicate Buried(list: seq<Byte>, l: seq<Byte>) {
    l != [] && l[|l| - 1] == 0 && l + [0] <= list && list[|list| - 1] == 0
  }

  lemma BuriedAfterRetry(s: Files, gen: seq<Byte>, l: seq<Byte>)
    requires Terminated(s.fail)
    requires (s.list == l && l != [] && l[|l| - 1] == 0 && s.fail != [] && s.fail[0] != 0) || Buried(s.list, l)
    ensures Buried(Listed(s, gen).0.list, l)
  {
    if s.list != [] && s.fail != [] && s.fail[0] != 0 {
      var r := Reverse(Split(s.fail));
      assert AllRecs(r);
      FlatEnds(r);
      var next := s.list + [0] + Flat(r);
      assert next[|next| - 1] == 0;
      assert s.list + [0] <= next;
      if s.list != l {
        assert l + [0] <= s.list;
        assert l + [0] <= next;
      }
    }
  }

  lemma {:induction false} BuriedStays(s: Files, attempts: seq<Attempt>, s': Files, l: seq<Byte>)
    requires Buried(s.list, l) && Runs(s, attempts, s')
    ensures Buried(s'.list, l)
    decreases |attempts|
  {
    if attempts != [] {
      var (s1, rc) := Turn(s, attempts[0]);
      TurnBuried(s, attempts[0], l);
      if 1 < |attempts| {
        BuriedStays(s1, attempts[1..], s', l);
      }
    }
  }

  lemma TurnBuried(s: Files, a: Attempt, l: seq<Byte>)
    requires Buried(s.list, l)
    ensures Buried(Turn(s, a).0.list, l)
  {
    if s.list == l + [0] {
      ThenFatal(l, a, s.fail);
    } else {
      assert s.list[|l|] == 0;
      assert |l| < LastStart(s.list);
    }
  }

  /** One run of the daemon's child: au_list, then the loop. */
  ghost predicate Session(s: Files, gen: seq<Byte>, attempts: seq<Attempt>, s': Files)
    requires Terminated(s.fail)
  {
    var (mid, ok) := Listed(s, gen);
    if ok then Runs(mid, attempts, s') else s' == s
  }

  /** ss are the files after each of the first runs. */
  ghost predicate Sessions(ss: seq<Files>, gens: seq<seq<Byte>>, runs: seq<seq<Attempt>>) {
    && |ss| == |gens| + 1 == |runs| + 1
    && forall i :: 0 <= i < |gens| && Terminated(ss[i].fail) ==> Session(ss[i], gens[i], runs[i], ss[i + 1])
  }

  /** What the program keeps of its two files: both end with a NUL, and the failed
      file does not begin with one. */
  predicate FilesOk(s: Files) {
    Terminated(s.list) && Terminated(s.fail) && (s.fail != [] ==> s.fail[0] != 0)
  }

  lemma TopEnds(list: seq<Byte>)
    requires list != [] && Terminated(list)
    ensures Terminated(Below(list)) && Terminated(Top(list)) && Top(list) != []
    ensures WellFormed(Top(list)) ==> Top(list)[0] != 0
  {
  }

  /** Only a well-formed record is appended, and that begins with no NUL. */
  lemma TurnOk(s: Files, a: Attempt)
    requires FilesOk(s) && s.list != []
    ensures FilesOk(Turn(s, a).0)
  {
    TopEnds(s.list);
    if WellFormed(Top(s.list)) { AppendOk(s.fail, Top(s.list)); }
  }

  lemma AppendOk(fail: seq<Byte>, r: seq<Byte>)
    requires Terminated(fail) && (fail != [] ==> fail[0] != 0)
    requires Terminated(r) && r != [] && r[0] != 0
    ensures Terminated(fail + r) && (fail + r)[0] != 0
  {
  }

  lemma {:induction false} RunsOk(s: Files, attempts: seq<Attempt>, s': Files)
    requires FilesOk(s) && Runs(s, attempts, s')
    ensures FilesOk(s')
    decreases |attempts|
  {
    if attempts != [] {
      TurnOk(s, attempts[0]);
      if 1 < |attempts| { RunsOk(Turn(s, attempts[0]).0, attempts[1..], s'); }
    }
  }

  /** au_list then never takes its exit, and keeps the files so. */
  lemma ListedOk(s: Files, gen: seq<Byte>)
    requires FilesOk(s) && (s.list == [] ==> Terminated(gen))
    ensures Listed(s, gen).1 && FilesOk(Listed(s, gen).0)
  {
    if s.list != [] && s.fail != [] {
      var r := Reverse(Split(s.fail));
      assert AllRecs(r);
      FlatEnds(r);
    }
  }

  lemma SessionOk(s: Files, gen: seq<Byte>, attempts: seq<Attempt>, s': Files)
    requires FilesOk(s) && (s.list == [] ==> Terminated(gen)) && Session(s, gen, attempts, s')
    ensures FilesOk(s')
  {
    ListedOk(s, gen);
    RunsOk(Listed(s, gen).0, attempts, s');
  }

  // ---- no record is lost between two runs either

  lemma TopIsRec(list: seq<Byte>)
    requires list != [] && Terminated(list)
    ensures IsRec(Top(list)) && Terminated(Below(list))
  {
    TopEnds(list);
  }

  lemma {:induction false} PoppedAreRecs(s: Files, attempts: seq<Attempt>)
    requires Terminated(s.list)
    ensures AllRecs(Popped(s, attempts)) && AllRecs(Again(s, attempts))
    decreases |attempts|
  {
    if attempts != [] && s.list != [] && Turn(s, attempts[0]).1 !in {Fatal, Error} {
      TopIsRec(s.list);
      PoppedAreRecs(Turn(s, attempts[0]).0, attempts[1..]);
    }
  }

  /** A run, record by record. */
  lemma RunsRecs(s: Files, attempts: seq<Attempt>, s': Files, ls': seq<seq<Byte>>, fs: seq<seq<Byte>>)
    requires Terminated(s.list) && Runs(s, attempts, s') && Consists(s'.list, ls') && Consists(s.fail, fs)
    ensures Consists(s.list, ls' + Reverse(Popped(s, attempts))) && Consists(s'.fail, fs + Again(s, attempts))
  {
    Conserved(s, attempts, s');
    PoppedAreRecs(s, attempts);
    FlatAppend(ls', Reverse(Popped(s, attempts)));
    FlatAppend(fs, Again(s, attempts));
  }

  /** The records that move_failed puts on the list: an empty one, and the failed
      ones in reverse. */
  function PutBack(fs: seq<seq<Byte>>): seq<seq<Byte>> {
    if fs == [] then [] else [[0]] + Reverse(fs)
  }

  /** au_list, record by record. The failed file is left alone when the list is
      generated anew, and emptied when its records are put back on a list. */
  lemma ListedRecs(s: Files, gen: seq<Byte>, ls: seq<seq<Byte>>, fs: seq<seq<Byte>>, gs: seq<seq<Byte>>)
    requires FilesOk(s) && Consists(s.list, ls) && Consists(s.fail, fs) && Consists(gen, gs)
    ensures Consists(Listed(s, gen).0.list, if ls == [] then gs else ls + PutBack(fs))
    ensures Consists(Listed(s, gen).0.fail, if ls == [] then fs else [])
    ensures s.list == [] <==> ls == []
  {
    FlatEnds(ls);
    FlatEnds(fs);
    if fs == [] {
      assert ls + PutBack(fs) == ls;
    } else if ls != [] {
      RetryRecs(s, ls, fs);
    }
  }

  lemma RetryRecs(s: Files, ls: seq<seq<Byte>>, fs: seq<seq<Byte>>)
    requires Terminated(s.fail) && Consists(s.list, ls) && Consists(s.fail, fs) && fs != []
    ensures Consists(Retry(s.list, s.fail), ls + PutBack(fs))
  {
    OneWay(s.fail, fs, Split(s.fail));
    PutBackFlat(fs);
    FlatAppend(ls, PutBack(fs));
    RetryIs(s.list, s.fail, Flat(PutBack(fs)));
  }

  lemma PutBackFlat(fs: seq<seq<Byte>>)
    requires AllRecs(fs) && fs != []
    ensures AllRecs(PutBack(fs)) && Flat(PutBack(fs)) == [0] + Flat(Reverse(fs))
  {
    FlatOne([0]);
    FlatAppend([[0]], Reverse(fs));
  }

  /** Over a whole run of the child, au_list included, no record is lost: what was on
      the list, generated or put back is there or was popped, and the failed file
      holds what it held, unless that was put back, and the popped records that were
      busy with one link. So each record of either file is still in one or was popped. */
  lemma SessionConserves(s: Files, gen: seq<Byte>, attempts: seq<Attempt>, s': Files,
      ls: seq<seq<Byte>>, fs: seq<seq<Byte>>, gs: seq<seq<Byte>>, ls': seq<seq<Byte>>)
    requires FilesOk(s) && Consists(s.list, ls) && Consists(s.fail, fs) && Consists(gen, gs)
    requires Session(s, gen, attempts, s') && Consists(s'.list, ls')
    ensures var mid := Listed(s, gen).0; var fs' := (if ls == [] then fs else []) + Again(mid, attempts);
      && (if ls == [] then gs else ls + PutBack(fs)) == ls' + Reverse(Popped(mid, attempts))
      && Consists(s'.fail, fs')
      && (forall r :: r in ls || r in fs ==> r in ls' || r in fs' || r in Popped(mid, attempts))
  {
    var mid := Listed(s, gen).0;
    GenEnds(gen, gs);
    ListedOk(s, gen);
    ListedRecs(s, gen, ls, fs, gs);
    RunsRecs(mid, attempts, s', ls', if ls == [] then fs else []);
    OneWay(mid.list, if ls == [] then gs else ls + PutBack(fs), ls' + Reverse(Popped(mid, attempts)));
    forall r | r in ls || r in fs
      ensures r in ls' || r in (if ls == [] then fs else []) || r in Popped(mid, attempts)
    {
      StillThere(ls, fs, gs, ls', Popped(mid, attempts), r);
    }
  }

  lemma GenEnds(gen: seq<Byte>, gs: seq<seq<Byte>>)
    requires Consists(gen, gs)
    ensures Terminated(gen)
  {
    FlatEnds(gs);
  }

  lemma StillThere(ls: seq<seq<Byte>>, fs: seq<seq<Byte>>, gs: seq<seq<Byte>>, ls': seq<seq<Byte>>,
      popped: seq<seq<Byte>>, r: seq<Byte>)
    requires (if ls == [] then gs else ls + PutBack(fs)) == ls' + Reverse(popped) && (r in ls || r in fs)
    ensures r in ls' || r in (if ls == [] then fs else []) || r in popped
  {
    InReverse(fs, r);
    InReverse(popped, r);
    assert ls != [] ==> r in ls + PutBack(fs);
    assert r in ls' + Reverse(popped) ==> r in ls' || r in Reverse(popped);
  }

  lemma InReverse(rs: seq<seq<Byte>>, r: seq<Byte>)
    ensures r in Reverse(rs) <==> r in rs
  {
    if i :| 0 <= i < |rs| && rs[i] == r { assert Reverse(rs)[|rs| - 1 - i] == r; }
    if i :| 0 <= i < |rs| && Reverse(rs)[i] == r { assert rs[|rs| - 1 - i] == r; }
  }

  /** Over all runs from files that are so, such as none at all, the "internal
      error" exit of move_failed is never taken. */
  lemma {:induction false} NeverExits(ss: seq<Files>, gens: seq<seq<Byte>>, runs: seq<seq<Attempt>>, n: nat)
    requires Sessions(ss, gens, runs) && n < |gens| && FilesOk(ss[0])
    requires forall i :: 0 <= i < |gens| ==> Terminated(gens[i])
    ensures FilesOk(ss[n]) && Listed(ss[n], gens[n]).1
    decreases n
  {
    if 0 < n {
      NeverExits(ss, gens, runs, n - 1);
      assert Session(ss[n - 1], gens[n - 1], runs[n - 1], ss[n - 1 + 1]);
      SessionOk(ss[n - 1], gens[n - 1], runs[n - 1], ss[n]);
    }
    ListedOk(ss[n], gens[n]);
  }

  /** Once a record has been put back on a list l, no later run ever takes a
      record of l off again, whatever happens to the files on it. */
  lemma {:induction false} NeverReached(ss: seq<Files>, gens: seq<seq<Byte>>, runs: seq<seq<Attempt>>, n: nat)
    requires Sessions(ss, gens, runs) && 0 < n < |ss|
    requires FilesOk(ss[0]) && ss[0].list != [] && ss[0].fail != []
    ensures Buried(ss[n].list, ss[0].list) && FilesOk(ss[n])
    decreases n
  {
    if 1 < n { NeverReached(ss, gens, runs, n - 1); }
    assert Session(ss[n - 1], gens[n - 1], runs[n - 1], ss[n - 1 + 1]);
    StaysBuried(ss[n - 1], gens[n - 1], runs[n - 1], ss[n], ss[0].list);
  }

  lemma StaysBuried(s: Files, gen: seq<Byte>, attempts: seq<Attempt>, s': Files, l: seq<Byte>)
    requires FilesOk(s) && Session(s, gen, attempts, s') && l != []
    requires Buried(s.list, l) || (s.list == l && s.fail != [])
    ensures Buried(s'.list, l) && FilesOk(s')
  {
    SessionOk(s, gen, attempts, s');
    SessionBuries(s, gen, attempts, s', l);
  }

  lemma SessionBuries(s: Files, gen: seq<Byte>, attempts: seq<Attempt>, s': Files, l: seq<Byte>)
    requires Terminated(s.fail) && Session(s, gen, attempts, s') && l != [] && l[|l| - 1] == 0
    requires Buried(s.list, l) || (s.list == l && s.fail != [] && s.fail[0] != 0)
    ensures Buried(s'.list, l)
  {
    BuriedAfterRetry(s, gen, l);
    var (mid, ok) := Listed(s, gen);
    if ok { BuriedStays(mid, attempts, s', l); }
  }

  /** So a run can go on with a left-over list exactly when nothing had failed. */
  lemma ContinuesIff(s: Files, gen: seq<Byte>)
    requires s.list != [] && Terminated(s.list) && Terminated(s.fail) && WellFormed(Top(s.list))
    ensures (exists attempts: seq<Attempt>, s': Files ::
              Session(s, gen, attempts, s') && |s'.list| < |s.list|) <==> s.fail == []
  {
    if s.fail == [] {
      var s' := Turn(s, MovedDown).0;
      assert Runs(s, [MovedDown], s');
      assert Session(s, gen, [MovedDown], s') && |s'.list| < |s.list|;
    } else {
      forall attempts: seq<Attempt>, s': Files | Session(s, gen, attempts, s') ensures |s.list| <= |s'.list| {
        NoShorter(s, gen, attempts, s');
      }
    }
  }

  lemma NoShorter(s: Files, gen: seq<Byte>, attempts: seq<Attempt>, s': Files)
    requires s.list != [] && Terminated(s.list) && Terminated(s.fail) && s.fail != [] && Session(s, gen, attempts, s')
    ensures |s.list| <= |s'.list|
  {
    if s.fail[0] != 0 { SessionBuries(s, gen, attempts, s', s.list); }
  }

  lemma RetryIs(list: seq<Byte>, fail: seq<Byte>, rev: seq<Byte>)
    requires Terminated(fail) && rev == [0] + Flat(Reverse(Split(fail)))
    ensures list + rev == Retry(list, fail)
  {
  }

  // ---- the loop

  /** What one turn meets: an exit message or a signal, what becomes of the file,
      and whether the branch is still over its watermark afterwards. */
  datatype Input = Input(stop: bool, attempt: Attempt, over: bool)

  /** The files when the loop ends, and what its last turn returned. */
  function Ended(s: Files, inputs: seq<Input>): (Files, Rc)
    requires s.list != []
    decreases |inputs|
  {
    if inputs == [] || inputs[0].stop then (s, Skipped)
    else
      var (s1, rc) := Turn(s, inputs[0].attempt);
      if rc == Skipped && inputs[0].over then Ended(s1, inputs[1..]) else (s1, rc)
  }

  /** The attempts it made. */
  function Made(s: Files, inputs: seq<Input>): seq<Attempt>
    requires s.list != []
    decreases |inputs|
  {
    if inputs == [] || inputs[0].stop then []
    else
      var (s1, rc) := Turn(s, inputs[0].attempt);
      [inputs[0].attempt] + if rc == Skipped && inputs[0].over then Made(s1, inputs[1..]) else []
  }

  /** The loop is a run, so all that is said of runs holds of it. */
  lemma {:induction false} EndedRuns(s: Files, inputs: seq<Input>)
    requires s.list != []
    ensures Runs(s, Made(s, inputs), Ended(s, inputs).0)
    ensures Ended(s, inputs).1 == Fatal ==> Ended(s, inputs).0.list != [] && !WellFormed(Top(Ended(s, inputs).0.list))
    decreases |inputs|
  {
    if inputs != [] && !inputs[0].stop {
      var (s1, rc) := Turn(s, inputs[0].attempt);
      if rc == Skipped && inputs[0].over {
        EndedRuns(s1, inputs[1..]);
        assert Made(s, inputs)[1..] == Made(s1, inputs[1..]);
      }
    }
  }

  /** And every run is one of the loop. */
  lemma {:induction false} RunsEnded(s: Files, attempts: seq<Attempt>, s': Files) returns (inputs: seq<Input>)
    requires s.list != [] && Runs(s, attempts, s')
    ensures Made(s, inputs) == attempts && Ended(s, inputs).0 == s'
    decreases |attempts|
  {
    inputs := [];
    if attempts != [] {
      var (s1, rc) := Turn(s, attempts[0]);
      var more := 1 < |attempts|;
      if more {
        inputs := RunsEnded(s1, attempts[1..], s');
      }
      var rest := inputs;
      inputs := [Input(false, attempts[0], more)] + rest;
      assert inputs[1..] == rest && attempts == [attempts[0]] + attempts[1..];
    }
  }

  /** When it ends: before the first input that tells it to stop, or behind the
      first attempt that was not skipped or left the branch within its watermark. */
  lemma MadeIff(s: Files, inputs: seq<Input>)
    requires s.list != []
    ensures var made := Made(s, inputs);
      && |made| <= |inputs|
      && (forall i :: 0 <= i < |made| ==> made[i] == inputs[i].attempt && !inputs[i].stop)
      && (forall i :: 0 <= i < |made| - 1 ==> inputs[i].over)
      && Why(|made|, Ended(s, inputs).1, inputs)
      && (made == [] ==> Ended(s, inputs) == (s, Skipped))
  {
    MadeFrom(s, inputs);
    EndsWhy(s, inputs);
  }

  lemma {:induction false} MadeFrom(s: Files, inputs: seq<Input>)
    requires s.list != []
    ensures var made := Made(s, inputs);
      && |made| <= |inputs|
      && (forall i :: 0 <= i < |made| ==> made[i] == inputs[i].attempt && !inputs[i].stop)
      && (forall i :: 0 <= i < |made| - 1 ==> inputs[i].over)
    decreases |inputs|
  {
    if inputs != [] && !inputs[0].stop {
      var (s1, rc) := Turn(s, inputs[0].attempt);
      if rc == Skipped && inputs[0].over {
        MadeFrom(s1, inputs[1..]);
        var rest := Made(s1, inputs[1..]);
        assert Made(s, inputs) == [inputs[0].attempt] + rest;
        forall i | 0 < i <= |rest| ensures Made(s, inputs)[i] == inputs[i].attempt && !inputs[i].stop {
          assert rest[i - 1] == inputs[1..][i - 1].attempt;
        }
      }
    }
  }

  /** After n attempts, the last of which returned rc, the loop ends, and not before. */
  predicate Why(n: nat, rc: Rc, inputs: seq<Input>) {
    n <= |inputs| && (n < |inputs| && !inputs[n].stop ==> 0 < n && (rc != Skipped || !inputs[n - 1].over))
  }

  lemma WhyStep(n: nat, rc: Rc, inputs: seq<Input>)
    requires inputs != [] && Why(n, rc, inputs[1..])
    ensures Why(n + 1, rc, inputs)
  {
    var rest := inputs[1..];
    assert n < |rest| ==> rest[n] == inputs[n + 1];
    assert 0 < n ==> rest[n - 1] == inputs[n];
  }

  lemma {:induction false} EndsWhy(s: Files, inputs: seq<Input>)
    requires s.list != []
    ensures Why(|Made(s, inputs)|, Ended(s, inputs).1, inputs)
    ensures Made(s, inputs) == [] ==> Ended(s, inputs) == (s, Skipped)
    decreases |inputs|
  {
    if inputs != [] && !inputs[0].stop {
      var (s1, rc) := Turn(s, inputs[0].attempt);
      if rc == Skipped && inputs[0].over {
        EndsWhy(s1, inputs[1..]);
        WhyStep(|Made(s1, inputs[1..])|, Ended(s1, inputs[1..]).1, inputs);
      }
    }
  }

  /** The two open files of the child. */
  class Mover {
    var list: seq<Byte>
    var fail: seq<Byte>
    var listsz: nat

    constructor (list: seq<Byte>, fail: seq<Byte>)
      ensures Abs() == Files(list, fail)
    {
      this.list, this.fail, listsz := list, fail, |list|;
    }

    ghost function Abs(): Files
      reads this
    {
      Files(list, fail)
    }

    /** move_failed */
    method MoveFailed() returns (ok: bool)
      requires list != [] && Terminated(fail)
      modifies this
      ensures ok <==> old(fail) == [] || old(fail)[0] != 0
      ensures list == if !ok || old(fail) == [] then old(list) else Retry(old(list), old(fail))
      ensures fail == if ok then [] else old(fail)
    {
      ok := true;
      if fail != [] {
        var internalError, rev := Reversed(fail);
        ok := !internalError;
        if ok {
          RetryIs(list, fail, rev[..]);
          list, fail := list + rev[..], [];
        }
      }
    }

    /** au_list, with `gen` for the output of the lister. */
    method List(gen: seq<Byte>) returns (ok: bool)
      requires Terminated(fail)
      modifies this
      ensures (Abs(), ok) == Listed(old(Abs()), gen)
    {
      if list != [] {
        ok := MoveFailed();
      } else {
        list := gen;
        ok := true;
      }
    }

    /** do_mvdown1 on the record at `f`. */
    method DoMvdown1(f: Fname, a: Attempt) returns (err: bool, done: bool)
      requires f.atime <= |list|
      modifies this`fail
      ensures err == Errs(a) && (!err ==> done == IsDone(a))
      ensures fail == if a == Busy(true) then old(fail) + list[f.atime..] else old(fail)
    {
      done := true;
      match a
      case NotOpened(noent) =>
        err := !noent;
      case MovedDown =>
        err := false;
      case OnLower =>
        err := false;
      case Busy(single) =>
        done := false;
        err := false;
        if single {
          fail := fail + list[f.atime..];
        }
      case Invalid =>
        done := false;
        err := false;
      case OtherError =>
        done := false;
        err := true;
    }

    /** do_mvdown */
    method DoMvdown(a: Attempt) returns (rc: Rc)
      requires list != [] && listsz == |list|
      modifies this
      ensures Abs() == Turn(old(Abs()), a).0 && rc == Turn(old(Abs()), a).1 && listsz == |list|
      ensures rc.Fatal? ==> list == old(list) && !WellFormed(Top(list))
      ensures rc.Skipped? ==> list != [] && |list| < |old(list)|
    {
      TurnShrinks(Abs(), a);
      var fatal, f := FnameOne(list);
      if fatal {
        return Fatal;
      }
      var err, done := DoMvdown1(f, a);
      if err {
        return Error;
      }
      list := list[..listsz - f.len];
      listsz := listsz - f.len;
      rc := if listsz != 0 && !done then Skipped else Completed;
    }

    /** The loop of mvdown_child. What it meets comes from outside; it stops
        where the inputs end, as it does for an exit message. */
    method Child(inputs: seq<Input>) returns (rc: Rc)
      requires list != []
      modifies this
      ensures (Abs(), rc) == Ended(old(Abs()), inputs)
    {
      listsz := |list|;
      rc := Skipped;
      ghost var s0 := Abs();
      var i := 0;
      assert inputs[0..] == inputs;
      while i < |inputs|
        invariant i <= |inputs| && rc == Skipped && list != [] && listsz == |list|
        invariant Ended(s0, inputs) == Ended(Abs(), inputs[i..])
      {
        var at := inputs[i];
        assert inputs[i..][1..] == inputs[i + 1..];
        if at.stop {
          break;
        }
        rc := DoMvdown(at.attempt);
        if rc != Skipped || !at.over {
          break;
        }
        i := i + 1;
      }
    }
  }
}
