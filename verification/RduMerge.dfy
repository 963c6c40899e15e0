/**
  rdu_merge: the packed records that the kernel returned for all branches are
  filtered to the visible ones with two trees, and the survivors are moved
  together in the same buffer.
  */
module RduMerge {
  import opened Basics
  import opened RduNames
  import opened RduCompact

  // ---- the packed records

  const WH := 12    // offset of wh
  const NAME := 13  // offset of name

  /** Where record i starts when the records with these names are packed. */
  function OffAt(names: seq<Name>, i: nat): nat
    requires i <= |names|
  {
    if i == 0 then 0 else OffAt(names, i - 1) + RecLen(|names[i - 1]|)
  }

  lemma {:induction false} OffMono(names: seq<Name>, i: nat, j: nat)
    requires i < j <= |names|
    ensures OffAt(names, i) + RecLen(|names[i]|) <= OffAt(names, j)
  {
    if i + 1 < j {
      OffMono(names, i, j - 1);
    }
  }

  ghost predicate RecordAt(mem: seq<Byte>, o: nat, n: Name) {
    && o + RecLen(|n|) <= |mem| && 0 < |n| < 256 && NulFree(n)
    && mem[o + NLEN] == |n|
    && mem[o + NAME..o + NAME + |n|] == n && mem[o + NAME + |n|] == 0
  }

  ghost predicate IsRecord(mem: seq<Byte>, names: seq<Name>, i: nat)
    requires i < |names|
  {
    RecordAt(mem, OffAt(names, i), names[i])
  }

  ghost predicate Packed(mem: seq<Byte>, names: seq<Name>) {
    && OffAt(names, |names|) <= |mem|
    && forall i :: 0 <= i < |names| ==> IsRecord(mem, names, i)
  }

  /** The bytes of a record, but for its wh field. */
  ghost predicate SameRecord(mem: seq<Byte>, o: nat, mem0: seq<Byte>, o0: nat, len: nat) {
    && WH < len && o + len <= |mem| && o0 + len <= |mem0|
    && mem[o..o + WH] == mem0[o0..o0 + WH]
    && mem[o + WH + 1..o + len] == mem0[o0 + WH + 1..o0 + len]
  }

  // ---- which records are visible

  /** Record k is kept: a name not seen and not whited out before it or, when
      whiteouts are shown, the first whiteout of its name. */
  ghost predicate Selected(names: seq<Name>, k: nat, shwh: bool)
    requires k < |names|
  {
    if IsWh(names[k]) then shwh && forall j :: 0 <= j < k ==> names[j] != names[k]
    else forall j :: 0 <= j < k ==> names[j] != names[k] && !(IsWh(names[j]) && Strip(names[j]) == names[k])
  }

  /** The kept records among the first n, in scan order. */
  ghost function Sel(names: seq<Name>, n: nat, shwh: bool): (s: seq<nat>)
    requires n <= |names|
    ensures |s| <= n && forall i :: 0 <= i < |s| ==> s[i] < n
  {
    if n == 0 then []
    else Sel(names, n - 1, shwh) + if Selected(names, n - 1, shwh) then [n - 1] else []
  }

  /** Just the selected records, each once and in scan order. */
  lemma {:induction false} SelExact(names: seq<Name>, n: nat, shwh: bool)
    requires n <= |names|
    ensures forall k :: 0 <= k < n ==> (k in Sel(names, n, shwh) <==> Selected(names, k, shwh))
    ensures forall i, j :: 0 <= i < j < |Sel(names, n, shwh)| ==> Sel(names, n, shwh)[i] < Sel(names, n, shwh)[j]
  {
    if 0 < n {
      SelExact(names, n - 1, shwh);
    }
  }

  ghost function Pick(names: seq<Name>, sel: seq<nat>): seq<Name>
    requires forall i :: 0 <= i < |sel| ==> sel[i] < |names|
  {
    seq(|sel|, i requires 0 <= i < |sel| => names[sel[i]])
  }

  /** The names that a directory scan shows. */
  ghost function Visible(names: seq<Name>, shwh: bool): seq<Name> {
    Pick(names, Sel(names, |names|, shwh))
  }

  /** The name of record k is mentioned there, and a real one not after its whiteout. */
  ghost predicate Shows(names: seq<Name>, k: nat, n: Name, shwh: bool)
    requires k < |names|
  {
    && names[k] == n
    && if IsWh(n) then shwh else forall j :: 0 <= j < k ==> !(IsWh(names[j]) && Strip(names[j]) == n)
  }

  /** What the selection means for a user: every name once, in the order of the first
      mention, with the record of that; and just the names whose first mention is not
      preceded by their whiteout, and the whiteouts if they are to be shown. */
  lemma VisibleMeans(names: seq<Name>, shwh: bool)
    ensures var v := Visible(names, shwh); var sel := Sel(names, |names|, shwh);
      && |v| == |sel|
      && (forall i, j :: 0 <= i < j < |v| ==> v[i] != v[j])
      && (forall i, j :: 0 <= i < |v| && 0 <= j < sel[i] ==> names[j] != v[i])
      && (forall n :: n in v <==> exists k: nat :: k < |names| && Shows(names, k, n, shwh))
  {
    var sel, v := Sel(names, |names|, shwh), Visible(names, shwh);
    SelExact(names, |names|, shwh);
    forall i | 0 <= i < |sel| ensures Selected(names, sel[i], shwh) && Shows(names, sel[i], v[i], shwh) {
      assert sel[i] in sel;
    }
    forall n, k: nat | k < |names| && Shows(names, k, n, shwh) ensures n in v {
      var f := First(names, k);
      assert Selected(names, f, shwh);
      var i :| 0 <= i < |sel| && sel[i] == f;
      assert v[i] == n;
    }
  }

  /** The first record with the name of record k. */
  lemma First(names: seq<Name>, k: nat) returns (f: nat)
    requires k < |names|
    ensures f <= k && names[f] == names[k] && forall j :: 0 <= j < f ==> names[j] != names[f]
  {
    f := k;
    if j :| 0 <= j < k && names[j] == names[k] {
      f := First(names, j);
    }
  }

  ghost predicate SeenWh(names: seq<Name>, k: nat, n: Name)
    requires k <= |names|
  {
    exists j :: 0 <= j < k && names[j] == WH_PFX + n
  }

  lemma WhiteoutOf(w: Name, n: Name)
    requires n != []
    ensures w == WH_PFX + n <==> IsWh(w) && Strip(w) == n
  {
  }

  /** The tree of real names after the first k records. */
  ghost predicate RealSeen(names: seq<Name>, k: nat, t: Tree)
    requires k <= |names|
  {
    && Ordered(Real, t)
    && (forall n <- Names(t) :: !IsWh(n) && exists j :: 0 <= j < k && names[j] == n)
    && (forall j :: 0 <= j < k && !IsWh(names[j]) ==> names[j] in Names(t) || SeenWh(names, k, names[j]))
  }

  /** The tree of whiteouts after the first k records. */
  ghost predicate WhSeen(names: seq<Name>, k: nat, t: Tree)
    requires k <= |names|
  {
    && Ordered(Wh2, t)
    && forall n :: n in Names(t) <==> IsWh(n) && exists j :: 0 <= j < k && names[j] == n
  }

  lemma SelectedReal(names: seq<Name>, k: nat, rt: Tree, wh: Tree, shwh: bool)
    requires k < |names| && RealSeen(names, k, rt) && WhSeen(names, k, wh) && !IsWh(names[k]) && names[k] != []
    ensures WH_PFX + names[k] in Names(wh) <==> SeenWh(names, k, names[k])
    ensures Selected(names, k, shwh) <==> WH_PFX + names[k] !in Names(wh) && names[k] !in Names(rt)
  {
    var n := names[k];
    WhiteoutOf(WH_PFX + n, n);
    forall j | 0 <= j < k ensures names[j] == WH_PFX + n <==> IsWh(names[j]) && Strip(names[j]) == n {
      WhiteoutOf(names[j], n);
    }
  }

  lemma SelectedWh(names: seq<Name>, k: nat, wh: Tree, shwh: bool)
    requires k < |names| && WhSeen(names, k, wh) && IsWh(names[k])
    ensures Selected(names, k, shwh) <==> shwh && names[k] !in Names(wh)
  {
  }

  function Flag(n: Name): Byte { if IsWh(n) then 1 else 0 }

  /** The buffer when the wh fields of the first k records have been set. */
  function SetFlags(mem: seq<Byte>, names: seq<Name>, k: nat): (r: seq<Byte>)
    requires k <= |names| && OffAt(names, k) <= |mem|
    ensures |r| == |mem|
  {
    if k == 0 then mem
    else SetFlags(mem, names, k - 1)[OffAt(names, k - 1) + WH := Flag(names[k - 1])]
  }

  lemma FlagStep(mem: seq<Byte>, names: seq<Name>, k: nat)
    requires k < |names| && OffAt(names, k) + RecLen(|names[k]|) <= |mem|
    ensures OffAt(names, k) + WH < OffAt(names, k + 1) <= |mem|
    ensures SetFlags(mem, names, k + 1) == SetFlags(mem, names, k)[OffAt(names, k) + WH := Flag(names[k])]
  {
  }

  /** A wh field lies inside no name and no length. */
  lemma RecordKept(mem: seq<Byte>, o: nat, n: Name, x: nat, v: Byte)
    requires RecordAt(mem, o, n) && x < |mem|
    requires x < o || o + RecLen(|n|) <= x || x == o + WH
    ensures RecordAt(mem[x := v], o, n)
  {
  }

  lemma FlagKeepsPacked(mem: seq<Byte>, names: seq<Name>, k: nat, v: Byte)
    requires k < |names| && Packed(mem, names)
    ensures OffAt(names, k) + WH < |mem| && Packed(mem[OffAt(names, k) + WH := v], names)
  {
    var x := OffAt(names, k) + WH;
    assert IsRecord(mem, names, k);
    var mem' := mem[x := v];
    forall i | 0 <= i < |names| ensures IsRecord(mem', names, i) {
      assert IsRecord(mem, names, i);
      if i < k { OffMono(names, i, k); }
      if k < i { OffMono(names, k, i); }
      RecordKept(mem, OffAt(names, i), names[i], x, v);
    }
  }

  /** Setting the flags leaves each record as it was, but for its wh field. */
  lemma {:induction false} FlagsOnly(mem: seq<Byte>, names: seq<Name>, k: nat, i: nat)
    requires i < k <= |names| && OffAt(names, k) <= |mem|
    ensures var o := OffAt(names, i);
      && o + RecLen(|names[i]|) <= OffAt(names, k)
      && SameRecord(SetFlags(mem, names, k), o, mem, o, RecLen(|names[i]|))
      && SetFlags(mem, names, k)[o + WH] == Flag(names[i])
  {
    OffMono(names, i, k);
    if i + 1 < k {
      FlagsOnly(mem, names, k - 1, i);
    } else {
      FlagsAfter(mem, names, i);
    }
  }

  lemma {:induction false} FlagsAfter(mem: seq<Byte>, names: seq<Name>, k: nat)
    requires k <= |names| && OffAt(names, k) <= |mem|
    ensures forall x :: OffAt(names, k) <= x < |mem| ==> SetFlags(mem, names, k)[x] == mem[x]
  {
    if 0 < k {
      FlagsAfter(mem, names, k - 1);
    }
  }

  ghost function Places(names: seq<Name>, sel: seq<nat>): seq<nat>
    requires forall i :: 0 <= i < |sel| ==> sel[i] < |names|
  {
    seq(|sel|, i requires 0 <= i < |sel| => OffAt(names, sel[i]))
  }

  /** Where each record starts. */
  ghost function Starts(names: seq<Name>): seq<nat> {
    seq(|names|, i requires 0 <= i < |names| => OffAt(names, i))
  }

  lemma PlacesStep(names: seq<Name>, k: nat, shwh: bool)
    requires k < |names|
    ensures Places(names, Sel(names, k + 1, shwh))
         == Places(names, Sel(names, k, shwh)) + if Selected(names, k, shwh) then [OffAt(names, k)] else []
  {
  }

  /** The scan after k records: buffer, stored positions and both trees. */
  ghost predicate Scanned(mem: seq<Byte>, stored: seq<nat>, rt: Tree, wh: Tree,
                          mem0: seq<Byte>, names: seq<Name>, k: nat, shwh: bool)
    requires k <= |names|
  {
    && Packed(mem, names) && OffAt(names, k) <= |mem0| && mem == SetFlags(mem0, names, k)
    && RealSeen(names, k, rt) && WhSeen(names, k, wh)
    && stored == Places(names, Sel(names, k, shwh))
  }

  lemma ScannedStep(mem: seq<Byte>, stored: seq<nat>, rt: Tree, wh: Tree, mem0: seq<Byte>, names: seq<Name>, k: nat, shwh: bool,
                    mem': seq<Byte>, stored': seq<nat>, rt': Tree, wh': Tree)
    requires k < |names| && Scanned(mem, stored, rt, wh, mem0, names, k, shwh)
    requires OffAt(names, k) + WH < |mem| && mem' == mem[OffAt(names, k) + WH := Flag(names[k])]
    requires stored' == stored + if Selected(names, k, shwh) then [OffAt(names, k)] else []
    requires RealSeen(names, k + 1, rt') && WhSeen(names, k + 1, wh')
    ensures Scanned(mem', stored', rt', wh', mem0, names, k + 1, shwh)
  {
    assert IsRecord(mem, names, k);
    FlagKeepsPacked(mem, names, k, Flag(names[k]));
    FlagStep(mem0, names, k);
    PlacesStep(names, k, shwh);
  }

  /** A record is determined by its bytes. */
  lemma ScannedStart(mem: seq<Byte>, names: seq<Name>, shwh: bool)
    requires Packed(mem, names)
    ensures Scanned(mem, [], Leaf, Leaf, mem, names, 0, shwh)
  {
  }

  lemma SliceRecord(mem: seq<Byte>, o: nat, mem0: seq<Byte>, o0: nat, n: Name)
    requires RecordAt(mem0, o0, n) && Same(mem, o, mem0, o0, RecLen(|n|))
    ensures RecordAt(mem, o, n)
  {
    var l := RecLen(|n|);
    var s := mem[o..o + l];
    assert mem[o + NLEN] == s[NLEN] && mem[o + NAME + |n|] == s[NAME + |n|];
    assert mem0[o0 + NLEN] == s[NLEN] && mem0[o0 + NAME + |n|] == s[NAME + |n|];
    SubSlice(mem, o, o + l, o + NAME, |n|);
    SubSlice(mem0, o0, o0 + l, o0 + NAME, |n|);
  }

  /** What rdu_merge leaves in the buffer: the visible records, packed from its
      start, each with the bytes it had and its wh field set. */
  ghost predicate Merged(mem: seq<Byte>, mem0: seq<Byte>, names: seq<Name>, shwh: bool)
    requires OffAt(names, |names|) <= |mem0|
  {
    var sel := Sel(names, |names|, shwh);
    var flagged := SetFlags(mem0, names, |names|);
    && Packed(mem, Visible(names, shwh))
    && forall i :: 0 <= i < |sel| ==>
         Same(mem, OffAt(Visible(names, shwh), i), flagged, OffAt(names, sel[i]), RecLen(|names[sel[i]]|))
  }

  lemma MovedIsMerged(mem: seq<Byte>, mem0: seq<Byte>, names: seq<Name>, shwh: bool)
    requires OffAt(names, |names|) <= |mem0| && Packed(SetFlags(mem0, names, |names|), names)
    requires var p := PlanOf(names, Sel(names, |names|, shwh));
             PlanOk(p, SetFlags(mem0, names, |names|))
             && Moved(p, mem, SetFlags(mem0, names, |names|), |p.to|)
    ensures Merged(mem, mem0, names, shwh)
  {
    var sel, kept, flagged := Sel(names, |names|, shwh), Visible(names, shwh), SetFlags(mem0, names, |names|);
    var p := PlanOf(names, sel);
    forall i | 0 <= i < |sel|
      ensures Same(mem, OffAt(kept, i), flagged, OffAt(names, sel[i]), RecLen(|names[sel[i]]|))
      ensures IsRecord(mem, kept, i)
    {
      assert Same(mem, p.to[i], flagged, p.from[i], p.len[i]);
      assert IsRecord(flagged, names, sel[i]);
      SliceRecord(mem, p.to[i], flagged, p.from[i], names[sel[i]]);
    }
    if 0 < |kept| {
      assert IsRecord(mem, kept, |kept| - 1);
    }
  }

  /** A visible record has the bytes the kernel wrote, and tells whether it is a whiteout. */
  lemma MergedRecord(mem: seq<Byte>, mem0: seq<Byte>, names: seq<Name>, shwh: bool, i: nat)
    requires OffAt(names, |names|) <= |mem0| && Merged(mem, mem0, names, shwh) && i < |Visible(names, shwh)|
    ensures var k := Sel(names, |names|, shwh)[i];
      && Visible(names, shwh)[i] == names[k]
      && IsCopy(mem, OffAt(Visible(names, shwh), i), mem0, names, k)
  {
    var k := Sel(names, |names|, shwh)[i];
    var o := OffAt(Visible(names, shwh), i);
    assert Same(mem, o, SetFlags(mem0, names, |names|), OffAt(names, k), RecLen(|names[k]|));
    CopyOfFlagged(mem, o, mem0, names, k);
  }

  /** At o there is record k of mem0, with its wh field set. */
  ghost predicate IsCopy(mem: seq<Byte>, o: nat, mem0: seq<Byte>, names: seq<Name>, k: nat)
    requires k < |names|
  {
    SameRecord(mem, o, mem0, OffAt(names, k), RecLen(|names[k]|)) && mem[o + WH] == if IsWh(names[k]) then 1 else 0
  }

  lemma CopyOfFlagged(mem: seq<Byte>, o: nat, mem0: seq<Byte>, names: seq<Name>, k: nat)
    requires k < |names| && OffAt(names, |names|) <= |mem0|
    requires Same(mem, o, SetFlags(mem0, names, |names|), OffAt(names, k), RecLen(|names[k]|))
    ensures IsCopy(mem, o, mem0, names, k)
  {
    var from, l, flagged := OffAt(names, k), RecLen(|names[k]|), SetFlags(mem0, names, |names|);
    FlagsOnly(mem0, names, |names|, k);
    SameParts(mem, o, flagged, from, l);
    SameTrans(mem, o, flagged, mem0, from, l);
  }

  lemma SameTrans(mem: seq<Byte>, o: nat, mid: seq<Byte>, mem0: seq<Byte>, from: nat, l: nat)
    requires SameRecord(mem, o, mid, from, l) && SameRecord(mid, from, mem0, from, l)
    ensures SameRecord(mem, o, mem0, from, l)
  {
  }

  lemma SameParts(mem: seq<Byte>, o: nat, mem0: seq<Byte>, o0: nat, l: nat)
    requires Same(mem, o, mem0, o0, l) && WH < l
    ensures SameRecord(mem, o, mem0, o0, l) && mem[o + WH] == mem0[o0 + WH]
  {
    assert mem[o + WH] == mem[o..o + l][WH] == mem0[o0..o0 + l][WH];
    SubSlice(mem, o, o + l, o, WH);
    SubSlice(mem0, o0, o0 + l, o0, WH);
    SubSlice(mem, o, o + l, o + WH + 1, l - WH - 1);
    SubSlice(mem0, o0, o0 + l, o0 + WH + 1, l - WH - 1);
  }

  /** When every record is selected there is nothing to move. */
  lemma AllSelected(names: seq<Name>, shwh: bool)
    requires |Sel(names, |names|, shwh)| == |names|
    ensures Visible(names, shwh) == names
    ensures forall i :: 0 <= i < |names| ==> Sel(names, |names|, shwh)[i] == i
  {
    SelExact(names, |names|, shwh);
    var sel := Sel(names, |names|, shwh);
    forall i | 0 <= i < |names| ensures sel[i] == i {
      AtLeast(sel, i);
      AtMost(sel, |names|, i);
    }
  }

  lemma AllInPlace(mem: seq<Byte>, names: seq<Name>, shwh: bool)
    requires |Sel(names, |names|, shwh)| == |names|
    requires PlanOk(PlanOf(names, Sel(names, |names|, shwh)), mem)
    ensures var p := PlanOf(names, Sel(names, |names|, shwh)); p.from == p.to && Moved(p, mem, mem, |p.to|)
    ensures Visible(names, shwh) == names
  {
    AllSelected(names, shwh);
  }

  lemma {:induction false} AtLeast(sel: seq<nat>, i: nat)
    requires i < |sel| && forall i, j :: 0 <= i < j < |sel| ==> sel[i] < sel[j]
    ensures i <= sel[i]
  {
    if 0 < i { AtLeast(sel, i - 1); }
  }

  lemma {:induction false} AtMost(sel: seq<nat>, n: nat, i: nat)
    requires i < |sel| == n && (forall i, j :: 0 <= i < j < |sel| ==> sel[i] < sel[j])
    requires forall i :: 0 <= i < |sel| ==> sel[i] < n
    ensures sel[i] <= i
    decreases n - i
  {
    if i + 1 < n { AtMost(sel, n, i + 1); }
  }

  /** The records of `sel` in the packed buffer, and where they belong. */
  ghost function PlanOf(names: seq<Name>, sel: seq<nat>): Plan
    requires forall i :: 0 <= i < |sel| ==> sel[i] < |names|
  {
    Plan(Places(names, sel), Starts(Pick(names, sel)),
         seq(|sel|, i requires 0 <= i < |sel| => RecLen(|names[sel[i]]|)))
  }

  lemma PlanFits(mem: seq<Byte>, names: seq<Name>, sel: seq<nat>)
    requires Packed(mem, names)
    requires forall i :: 0 <= i < |sel| ==> sel[i] < |names|
    requires forall i, j :: 0 <= i < j < |sel| ==> sel[i] < sel[j]
    ensures PlanOk(PlanOf(names, sel), mem)
  {
    var p := PlanOf(names, sel);
    forall i | 0 <= i < |sel|
      ensures p.from[i] + p.len[i] <= |mem| && RecLen(mem[p.from[i] + NLEN]) == p.len[i]
    {
      assert IsRecord(mem, names, sel[i]);
    }
    forall i, j | 0 <= i < j < |sel| ensures p.from[i] + p.len[i] <= p.from[j] {
      OffMono(names, sel[i], sel[j]);
    }
  }

  /** struct rdu, with the buffer of records and the interface variable of tsearch. */
  class Rdu {
    const mem: array<Byte>
    var pos: array<nat>
    var idx: nat
    var npos: nat
    var realTree: Tree
    var whTree: Tree
    var shwh: bool
    var doStore: bool

    constructor (mem: array<Byte>, npos: nat, shwh: bool)
      ensures this.mem == mem && this.npos == npos && this.shwh == shwh && fresh(pos)
    {
      this.mem, this.npos, this.shwh := mem, npos, shwh;
      pos, idx, realTree, whTree, doStore := new nat[0], 0, Leaf, Leaf, true;
    }

    /** One call of a comparator, with its side effect. */
    method Call(o: Order, a: Name, b: Name) returns (c: int)
      requires o.Wh1? && !IsWh(a) ==> 4 <= |b|
      requires o.Wh2? ==> 4 <= |a| && 4 <= |b|
      modifies this`doStore
      ensures c == Compar(o, a, b)
      ensures doStore == if o.Wh1? then old(doStore) else c != 0
    {
      c := Compar(o, a, b);
      if !o.Wh1? {
        doStore := c != 0;
      }
    }

    /** tsearch: the interface variable tells afterwards whether the key was new. */
    method TSearch(o: Order, t: Tree, e: Ent) returns (t': Tree)
      requires o != Wh1 && Ordered(o, t) && Fits(o, e.name)
      requires doStore
      modifies this`doStore
      ensures t' == Insert(o, t, e)
      ensures doStore <==> e.name !in Names(t)
      decreases t
    {
      match t
      case Leaf => t' := Node(Leaf, e, Leaf);
      case Node(l, m, r) =>
        Side(o, t, e.name);
        var c := Call(o, e.name, m.name);
        if c == 0 {
          t' := t;
        } else if c < 0 {
          var l' := TSearch(o, l, e);
          t' := Node(l', m, r);
        } else {
          var r' := TSearch(o, r, e);
          t' := Node(l, m, r');
        }
    }

    /** tfind in the whiteout tree, with the comparator made for it. */
    method TFind(t: Tree, n: Name) returns (found: bool)
      requires Ordered(Wh2, t) && !IsWh(n) && NulFree(n) && n != []
      modifies this`doStore
      ensures found <==> WH_PFX + n in Names(t)
      ensures doStore == old(doStore)
      decreases t
    {
      match t
      case Leaf => found := false;
      case Node(l, m, r) =>
        SearchAgrees(n, m.name);
        Side(Wh2, t, WH_PFX + n);
        var c := Call(Wh1, n, m.name);
        if c == 0 {
          found := true;
        } else if c < 0 {
          found := TFind(l, n);
        } else {
          found := TFind(r, n);
        }
    }

    method RduStore(at: nat)
      requires idx < pos.Length
      modifies this`idx, pos
      ensures idx == old(idx) + 1
      ensures pos[..idx] == old(pos[..idx]) + [at]
    {
      pos[idx] := at;
      idx := idx + 1;
    }

    method EntAppend(e: Ent, ghost names: seq<Name>, ghost k: nat)
      requires k < |names| && e.name == names[k] && !IsWh(e.name) && NulFree(e.name) && e.name != []
      requires RealSeen(names, k, realTree) && WhSeen(names, k, whTree)
      requires doStore && idx < pos.Length
      modifies this`realTree, this`doStore, this`idx, pos
      ensures RealSeen(names, k + 1, realTree) && WhSeen(names, k + 1, whTree)
      ensures idx == old(idx) + (if Selected(names, k, shwh) then 1 else 0)
      ensures pos[..idx] == old(pos[..idx]) + (if Selected(names, k, shwh) then [e.at] else [])
    {
      RealAppended(names, k, realTree, whTree, e, shwh);
      var found := TFind(whTree, e.name);
      if !found {
        realTree := TSearch(Real, realTree, e);
        if doStore {
          RduStore(e.at);
        }
      }
    }

    method EntAppendWh(e: Ent, ghost names: seq<Name>, ghost k: nat)
      requires k < |names| && e.name == names[k] && IsWh(e.name) && NulFree(e.name)
      requires RealSeen(names, k, realTree) && WhSeen(names, k, whTree)
      requires doStore && idx < pos.Length
      modifies this`whTree, this`doStore, this`idx, pos
      ensures RealSeen(names, k + 1, realTree) && WhSeen(names, k + 1, whTree)
      ensures idx == old(idx) + (if Selected(names, k, shwh) then 1 else 0)
      ensures pos[..idx] == old(pos[..idx]) + (if Selected(names, k, shwh) then [e.at] else [])
    {
      WhAppended(names, k, realTree, whTree, e, shwh);
      whTree := TSearch(Wh2, whTree, e);
      if shwh && doStore {
        RduStore(e.at);
      }
    }

    /** One record of the scan of rdu_merge. */
    method ScanOne(u: nat, ghost names: seq<Name>, ghost k: nat) returns (next: nat)
      requires k < |names| && u == OffAt(names, k) && RecordAt(mem[..], u, names[k])
      requires RealSeen(names, k, realTree) && WhSeen(names, k, whTree)
      requires idx < pos.Length && pos as object != mem
      modifies this`realTree, this`whTree, this`doStore, this`idx, pos, mem
      ensures next == OffAt(names, k + 1)
      ensures u + WH < mem.Length && mem[..] == old(mem[..])[u + WH := Flag(names[k])]
      ensures RealSeen(names, k + 1, realTree) && WhSeen(names, k + 1, whTree)
      ensures idx == old(idx) + (if Selected(names, k, shwh) then 1 else 0)
      ensures pos[..idx] == old(pos[..idx]) + (if Selected(names, k, shwh) then [u] else [])
    {
      mem[u + WH] := 0;
      doStore := true;
      var nlen := mem[u + NLEN];
      var name := mem[u + NAME..u + NAME + nlen];
      assert name == old(mem[..])[u + NAME..u + NAME + nlen] == names[k];
      if !IsWh(name) {
        EntAppend(Ent(u, name), names, k);
      } else {
        mem[u + WH] := 1;
        EntAppendWh(Ent(u, name), names, k);
      }
      next := u + RecLen(nlen);
    }

    ghost predicate ScanState(names: seq<Name>, k: nat, mem0: seq<Byte>)
      reads this, mem, pos
    {
      && npos == |names| == pos.Length && idx <= k <= npos && pos as object != mem
      && Scanned(mem[..], pos[..idx], realTree, whTree, mem0, names, k, shwh)
    }

    method ScanStep(u: nat, ghost names: seq<Name>, ghost k: nat, ghost mem0: seq<Byte>) returns (next: nat)
      requires k < |names| && u == OffAt(names, k) && ScanState(names, k, mem0)
      modifies this`realTree, this`whTree, this`doStore, this`idx, pos, mem
      ensures next == OffAt(names, k + 1) && ScanState(names, k + 1, mem0)
    {
      ghost var bytes, stored, rt, wh := mem[..], pos[..idx], realTree, whTree;
      assert IsRecord(bytes, names, k);
      next := ScanOne(u, names, k);
      ScannedStep(bytes, stored, rt, wh, mem0, names, k, shwh, mem[..], pos[..idx], realTree, whTree);
    }

    /** The scan of rdu_merge: every record goes through the trees. */
    method Scan(ghost names: seq<Name>)
      requires npos == |names| && Packed(mem[..], names)
      modifies this, mem
      ensures fresh(pos) && idx <= pos.Length == npos == old(npos) && shwh == old(shwh)
      ensures Packed(mem[..], names) && mem[..] == SetFlags(old(mem[..]), names, |names|)
      ensures pos[..idx] == Places(names, Sel(names, |names|, shwh))
    {
      pos := new nat[npos];
      idx, realTree, whTree := 0, Leaf, Leaf;
      ScannedStart(mem[..], names, shwh);
      assert pos[..idx] == [];
      ScanAll(names, mem[..]);
    }

    method ScanAll(ghost names: seq<Name>, ghost mem0: seq<Byte>)
      requires ScanState(names, 0, mem0)
      modifies this`realTree, this`whTree, this`doStore, this`idx, pos, mem
      ensures ScanState(names, |names|, mem0)
    {
      var u := 0;
      for ul := 0 to npos
        invariant npos == |names| && u == OffAt(names, ul) && ScanState(names, ul, mem0)
      {
        u := ScanStep(u, names, ul, mem0);
      }
    }

    /** The end of rdu_merge: the survivors are moved together, if need be. */
    method Squeeze(ghost names: seq<Name>, ghost mem0: seq<Byte>)
      requires npos == |names| && idx <= npos <= pos.Length && pos as object != mem
      requires OffAt(names, |names|) <= |mem0| && mem[..] == SetFlags(mem0, names, |names|)
      requires Packed(mem[..], names) && pos[..idx] == Places(names, Sel(names, |names|, shwh))
      modifies this`npos, pos, mem
      ensures npos == |Visible(names, shwh)| <= pos.Length && Merged(mem[..], mem0, names, shwh)
      ensures pos[..npos] == Starts(Visible(names, shwh))
    {
      ghost var flagged := mem[..];
      ghost var sel := Sel(names, |names|, shwh);
      ghost var p := PlanOf(names, sel);
      SelExact(names, |names|, shwh);
      PlanFits(flagged, names, sel);
      Together(names, p);
      MovedIsMerged(mem[..], mem0, names, shwh);
    }

    method Together(ghost names: seq<Name>, ghost p: Plan)
      requires npos == |names| && idx <= npos <= pos.Length && pos as object != mem
      requires p == PlanOf(names, Sel(names, |names|, shwh)) && PlanOk(p, mem[..]) && Packed(mem[..], names)
      requires pos[..idx] == p.from
      modifies this`npos, pos, mem
      ensures npos == old(idx) == |p.to| && pos[..npos] == p.to && Moved(p, mem[..], old(mem[..]), |p.to|)
    {
      ghost var was := mem[..];
      if idx == npos {
        AllInPlace(was, names, shwh);
      } else {
        npos := idx;
        CompactAll(p);
      }
    }

    method CompactAll(ghost p: Plan)
      requires PlanOk(p, mem[..]) && npos <= pos.Length && pos as object != mem && pos[..npos] == p.from
      modifies pos, mem
      ensures pos[..npos] == p.to && Moved(p, mem[..], old(mem[..]), |p.to|)
    {
      assert forall i :: 0 <= i < npos ==> pos[i] == pos[..npos][i];
      Compact(mem, pos, npos, p);
    }

    /** rdu_merge, allocations succeeding. */
    method Merge(ghost names: seq<Name>)
      requires npos == |names| && Packed(mem[..], names)
      modifies this, mem
      ensures shwh == old(shwh) && npos == |Visible(names, shwh)| <= pos.Length
      ensures Merged(mem[..], old(mem[..]), names, shwh)
      ensures pos[..npos] == Starts(Visible(names, shwh))
    {
      ghost var mem0 := mem[..];
      Scan(names);
      Squeeze(names, mem0);
    }
  }

  lemma WhStep(names: seq<Name>, k: nat, t: Tree, t': Tree, n: Name)
    requires k < |names| && n == names[k] && IsWh(n) && WhSeen(names, k, t)
    requires Ordered(Wh2, t') && Names(t') == Names(t) + {n}
    ensures WhSeen(names, k + 1, t')
  {
    forall x ensures x in Names(t') <==> IsWh(x) && exists j :: 0 <= j < k + 1 && names[j] == x {
      if x in Names(t) {
        var j :| 0 <= j < k && names[j] == x;
      }
      assert names[k] == n;
    }
  }

  /** A record of one kind does not concern the other tree. */
  lemma OtherTree(names: seq<Name>, k: nat, rt: Tree, wh: Tree)
    requires k < |names|
    ensures IsWh(names[k]) && RealSeen(names, k, rt) ==> RealSeen(names, k + 1, rt)
    ensures !IsWh(names[k]) && WhSeen(names, k, wh) ==> WhSeen(names, k + 1, wh)
  {
    if IsWh(names[k]) && RealSeen(names, k, rt) {
      forall j | 0 <= j < k + 1 && !IsWh(names[j]) ensures names[j] in Names(rt) || SeenWh(names, k + 1, names[j]) {
        if names[j] !in Names(rt) {
          var i :| 0 <= i < k && names[i] == WH_PFX + names[j];
        }
      }
    }
  }

  lemma RealStep(names: seq<Name>, k: nat, t: Tree, t': Tree, n: Name)
    requires k < |names| && n == names[k] && !IsWh(n) && RealSeen(names, k, t)
    requires (t' == t && SeenWh(names, k, n)) || (Ordered(Real, t') && Names(t') == Names(t) + {n})
    ensures RealSeen(names, k + 1, t')
  {
    forall j | 0 <= j < k + 1 && !IsWh(names[j]) ensures names[j] in Names(t') || SeenWh(names, k + 1, names[j]) {
      if j < k && names[j] !in Names(t) {
        var i :| 0 <= i < k && names[i] == WH_PFX + names[j];
      }
    }
  }

  lemma RealAppended(names: seq<Name>, k: nat, rt: Tree, wh: Tree, e: Ent, shwh: bool)
    requires k < |names| && e.name == names[k] && !IsWh(e.name) && NulFree(e.name) && e.name != []
    requires RealSeen(names, k, rt) && WhSeen(names, k, wh)
    ensures Selected(names, k, shwh) <==> WH_PFX + e.name !in Names(wh) && e.name !in Names(rt)
    ensures RealSeen(names, k + 1, if WH_PFX + e.name in Names(wh) then rt else Insert(Real, rt, e))
    ensures WhSeen(names, k + 1, wh)
  {
    SelectedReal(names, k, rt, wh, shwh);
    InsertIsUnion(Real, rt, e);
    RealStep(names, k, rt, if WH_PFX + e.name in Names(wh) then rt else Insert(Real, rt, e), e.name);
    OtherTree(names, k, rt, wh);
  }

  lemma WhAppended(names: seq<Name>, k: nat, rt: Tree, wh: Tree, e: Ent, shwh: bool)
    requires k < |names| && e.name == names[k] && IsWh(e.name) && NulFree(e.name)
    requires RealSeen(names, k, rt) && WhSeen(names, k, wh)
    ensures Selected(names, k, shwh) <==> shwh && e.name !in Names(wh)
    ensures WhSeen(names, k + 1, Insert(Wh2, wh, e))
    ensures RealSeen(names, k + 1, rt)
  {
    SelectedWh(names, k, wh, shwh);
    InsertIsUnion(Wh2, wh, e);
    WhStep(names, k, wh, Insert(Wh2, wh, e), e.name);
    OtherTree(names, k, rt, wh);
  }
}
