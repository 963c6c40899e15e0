/**
  The watermark table of FHSM: kept in shared memory, reconciled with the
  branches of the mount, sorted by branch id and edited by the administrator.
  */
module FhsmWmark {

  /** Free ratios; UPPER used means less free, so upper <= lower. */
  datatype Marks = Marks(upper: real, lower: real)
  datatype Wmark = Wmark(brid: int, block: Marks, inode: Marks)

  /** A branch of the mount; `fhsm` tells whether it takes part in FHSM. */
  datatype Branch = Branch(id: int, fhsm: bool)

  const NONE: Wmark := Wmark(-1, Marks(0.0, 0.0), Marks(0.0, 0.0))

  /** wm_init: 75% - 50% by default */
  function WmInit(br: Branch): Wmark {
    Wmark(br.id, Marks(0.25, 0.5), Marks(1.0, 1.0))
  }

  ghost predicate RatioOk(m: Marks) { 0.0 <= m.upper <= m.lower <= 1.0 }
  ghost predicate RatiosOk(t: seq<Wmark>) {
    forall k :: 0 <= k < |t| ==> RatioOk(t[k].block) && RatioOk(t[k].inode)
  }

  /** au_wm_lfind: the first entry for a branch id, or |t|. */
  function LFind(t: seq<Wmark>, brid: int): (k: nat)
    ensures k <= |t| && (k < |t| ==> t[k].brid == brid)
    ensures forall j :: 0 <= j < k ==> t[j].brid != brid
  {
    if t == [] then 0 else if t[0].brid == brid then 0
    else
      var k := LFind(t[1..], brid);
      assert forall j :: 0 < j < k + 1 ==> t[j] == t[1..][j - 1];
      k + 1
  }

  ghost predicate Has(t: seq<Wmark>, brid: int) {
    exists k :: 0 <= k < |t| && t[k].brid == brid
  }

  // ---- which entries stay

  /** fhsm_invalid compares entry k with branch k only. */
  predicate Survives(t: seq<Wmark>, br: seq<Branch>, k: nat)
    requires k < |t| == |br|
  {
    0 <= t[k].brid == br[k].id
  }

  function Invalidated(t: seq<Wmark>, br: seq<Branch>): (r: seq<Wmark>)
    requires |t| == |br|
  {
    seq(|t|, k requires 0 <= k < |t| =>
      if t[k].brid < 0 || Survives(t, br, k) then t[k] else t[k].(brid := -1))
  }

  // ---- filling the free entries

  /** One branch of fhsm_reinit: the table, the entry of the nearest earlier
      branch that had one (or -1), and whether to go on. */
  function ReinitOne(t: seq<Wmark>, prev: int, b: Branch): (seq<Wmark>, int, bool)
    requires -1 <= prev < |t|
  {
    if !b.fhsm then (t, prev, true)
    else if b.id < 0 then (t, prev, false)
    else
      var k := LFind(t, b.id);
      if k < |t| then (t, k, true)
      else
        var f := LFind(t, -1);
        if f == |t| then (t, prev, false)
        else (t[f := if prev < 0 then WmInit(b) else Wmark(b.id, t[prev].block, t[prev].inode)], prev, true)
  }

  /** What the reconciliation makes of branch j: its own entry if that stays,
      else the marks of the nearest earlier branch that keeps its own. */
  function Donor(t: seq<Wmark>, br: seq<Branch>, j: nat): (d: int)
    requires j <= |t| == |br|
    ensures -1 <= d < j && (0 <= d ==> br[d].fhsm && Survives(t, br, d))
    ensures forall i :: d < i < j ==> !(br[i].fhsm && Survives(t, br, i))
  {
    if j == 0 then -1
    else if br[j - 1].fhsm && Survives(t, br, j - 1) then j - 1
    else Donor(t, br, j - 1)
  }

  function Expected(t: seq<Wmark>, br: seq<Branch>, j: nat): Wmark
    requires j < |t| == |br|
  {
    if Survives(t, br, j) then t[j]
    else
      var d := Donor(t, br, j);
      if d < 0 then WmInit(br[j]) else Wmark(br[j].id, t[d].block, t[d].inode)
  }

  /** What the driver's callers provide: distinct ids, non-negative for FHSM. */
  ghost predicate BranchesOk(br: seq<Branch>) {
    && (forall i, j :: 0 <= i < j < |br| ==> br[i].id != br[j].id)
    && (forall i :: 0 <= i < |br| && br[i].fhsm ==> 0 <= br[i].id)
  }

  /** The table after the first i branches. */
  ghost predicate Reconciling(t: seq<Wmark>, t0: seq<Wmark>, br: seq<Branch>, i: nat)
    requires |t0| == |br| && i <= |t0|
  {
    && |t| == |t0|
    && (forall k :: 0 <= k < |t| && Survives(t0, br, k) ==> t[k] == t0[k])
    && (forall k :: 0 <= k < |t| && !Survives(t0, br, k) ==>
          t[k] == t0[k].(brid := -1)
          || exists j :: 0 <= j < i && br[j].fhsm && !Survives(t0, br, j) && t[k] == Expected(t0, br, j))
    && (forall j :: 0 <= j < i && br[j].fhsm ==> Expected(t0, br, j) in t)
    && (forall k, l :: 0 <= k < l < |t| && 0 <= t[k].brid ==> t[k].brid != t[l].brid)
  }

  lemma InvalidatedStart(t0: seq<Wmark>, br: seq<Branch>)
    requires |t0| == |br| && BranchesOk(br) && forall k :: 0 <= k < |t0| ==> -1 <= t0[k].brid
    ensures Reconciling(Invalidated(t0, br), t0, br, 0)
  {
  }

  ghost function Ids(br: seq<Branch>): set<int> {
    set b <- br :: b.id
  }

  ghost function Brids(t: seq<Wmark>): set<int> {
    set w <- t :: w.brid
  }

  lemma {:induction false} IdsCount(br: seq<Branch>)
    ensures |Ids(br)| <= |br|
    ensures (forall i, j :: 0 <= i < j < |br| ==> br[i].id != br[j].id) ==> |Ids(br)| == |br|
  {
    if br != [] {
      var n := |br| - 1;
      IdsCount(br[..n]);
      assert br == br[..n] + [br[n]];
      assert Ids(br) == Ids(br[..n]) + {br[n].id};
    }
  }

  lemma {:induction false} BridsCount(t: seq<Wmark>)
    requires forall k, l :: 0 <= k < l < |t| ==> t[k].brid != t[l].brid
    ensures |Brids(t)| == |t|
  {
    if t != [] {
      var n := |t| - 1;
      BridsCount(t[..n]);
      assert t == t[..n] + [t[n]];
      assert Brids(t) == Brids(t[..n]) + {t[n].brid};
    }
  }

  /** The pigeonhole: entries with different ids that lack one of the branch
      ids are fewer than the branches. */
  lemma Pigeonhole(t: seq<Wmark>, br: seq<Branch>, id: int)
    requires id in Ids(br) && !Has(t, id)
    requires forall k :: 0 <= k < |t| ==> t[k].brid in Ids(br)
    requires forall k, l :: 0 <= k < l < |t| ==> t[k].brid != t[l].brid
    ensures |t| < |br|
  {
    BridsCount(t);
    IdsCount(br);
    assert Brids(t) <= Ids(br) - {id};
    Subset(Brids(t), Ids(br) - {id});
  }

  lemma Subset(a: set<int>, b: set<int>)
    requires a <= b
    ensures |a| <= |b|
  {
    var c := b - a;
    assert b == a + c;
  }

  /** Where the branch ids in the table come from. */
  lemma KnownIds(t: seq<Wmark>, t0: seq<Wmark>, br: seq<Branch>, i: nat)
    requires |t0| == |br| && i < |t0| && BranchesOk(br) && Reconciling(t, t0, br, i) && br[i].fhsm
    ensures forall k :: 0 <= k < |t| ==> t[k].brid == -1 || (0 <= t[k].brid && t[k].brid in Ids(br))
    ensures Survives(t0, br, i) ==> LFind(t, br[i].id) == i
    ensures !Survives(t0, br, i) ==> !Has(t, br[i].id)
  {
    forall k | 0 <= k < |t| && t[k].brid != -1
      ensures 0 <= t[k].brid && t[k].brid in Ids(br) && (t[k].brid == br[i].id ==> k == i && Survives(t0, br, i))
    {
      if Survives(t0, br, k) {
        assert br[k] in br;
      } else {
        var j :| 0 <= j < i && br[j].fhsm && t[k] == Expected(t0, br, j);
        assert br[j] in br;
      }
    }
  }

  ghost predicate StepOk(t: seq<Wmark>, t0: seq<Wmark>, br: seq<Branch>, i: nat)
    requires |t0| == |br| == |t| && i < |t0|
  {
    var (t', prev', ok) := ReinitOne(t, Donor(t0, br, i), br[i]);
    ok && prev' == Donor(t0, br, i + 1) && Reconciling(t', t0, br, i + 1)
  }

  /** One branch of fhsm_reinit never fails, and does what is expected of it. */
  lemma ReinitStep(t: seq<Wmark>, t0: seq<Wmark>, br: seq<Branch>, i: nat)
    requires |t0| == |br| && i < |t0| && BranchesOk(br) && Reconciling(t, t0, br, i)
    ensures StepOk(t, t0, br, i)
  {
    if br[i].fhsm && !Survives(t0, br, i) {
      StepFills(t, t0, br, i);
    } else {
      StepLeaves(t, t0, br, i);
    }
  }

  lemma StepFills(t: seq<Wmark>, t0: seq<Wmark>, br: seq<Branch>, i: nat)
    requires |t0| == |br| && i < |t0| && BranchesOk(br) && Reconciling(t, t0, br, i)
    requires br[i].fhsm && !Survives(t0, br, i)
    ensures StepOk(t, t0, br, i)
  {
    KnownIds(t, t0, br, i);
    FreeEntry(t, br, br[i].id);
    FilledKeeps(t, t0, br, i, LFind(t, -1));
    SurvivorsAs(t, t0, br, i);
  }

  /** Entries that stay are there with their marks all the time. */
  lemma SurvivorsAs(t: seq<Wmark>, t0: seq<Wmark>, br: seq<Branch>, i: nat)
    requires |t0| == |br| && i < |t0| && Reconciling(t, t0, br, i)
    ensures var d := Donor(t0, br, i); 0 <= d ==> t[d] == t0[d]
  {
  }

  /** Nothing is to be done for a branch that keeps its entry, or takes no part. */
  lemma StepLeaves(t: seq<Wmark>, t0: seq<Wmark>, br: seq<Branch>, i: nat)
    requires |t0| == |br| && i < |t0| && BranchesOk(br) && Reconciling(t, t0, br, i)
    requires br[i].fhsm ==> Survives(t0, br, i)
    ensures StepOk(t, t0, br, i)
  {
    if br[i].fhsm {
      KnownIds(t, t0, br, i);
      assert t[i] == Expected(t0, br, i);
    }
    LeftKeeps(t, t0, br, i);
  }

  lemma LeftKeeps(t: seq<Wmark>, t0: seq<Wmark>, br: seq<Branch>, i: nat)
    requires |t0| == |br| && i < |t0| && Reconciling(t, t0, br, i)
    requires br[i].fhsm ==> Survives(t0, br, i) && Expected(t0, br, i) in t
    ensures Reconciling(t, t0, br, i + 1)
  {
  }

  /** The "should not happen" exit is never taken. */
  lemma FreeEntry(t: seq<Wmark>, br: seq<Branch>, id: int)
    requires |t| == |br| && id in Ids(br) && !Has(t, id)
    requires forall k :: 0 <= k < |t| ==> t[k].brid == -1 || t[k].brid in Ids(br)
    requires forall k, l :: 0 <= k < l < |t| && t[k].brid != -1 ==> t[k].brid != t[l].brid
    ensures LFind(t, -1) < |t|
  {
    if LFind(t, -1) == |t| { Pigeonhole(t, br, id); }
  }

  lemma FilledKeeps(t: seq<Wmark>, t0: seq<Wmark>, br: seq<Branch>, i: nat, f: nat)
    requires |t0| == |br| && i < |t0| && BranchesOk(br) && Reconciling(t, t0, br, i)
    requires br[i].fhsm && !Survives(t0, br, i) && !Has(t, br[i].id) && f < |t| && t[f].brid == -1
    ensures Reconciling(t[f := Expected(t0, br, i)], t0, br, i + 1)
  {
    FilledLists(t, t0, br, i, f);
    FilledOnce(t, Expected(t0, br, i), f);
  }

  lemma FilledLists(t: seq<Wmark>, t0: seq<Wmark>, br: seq<Branch>, i: nat, f: nat)
    requires |t0| == |br| && i < |t0| && BranchesOk(br) && f < |t| && t[f].brid == -1
    requires forall j :: 0 <= j < i && br[j].fhsm ==> Expected(t0, br, j) in t
    ensures forall j :: 0 <= j < i + 1 && br[j].fhsm ==> Expected(t0, br, j) in t[f := Expected(t0, br, i)]
  {
    var t' := t[f := Expected(t0, br, i)];
    forall j | 0 <= j < i + 1 && br[j].fhsm ensures Expected(t0, br, j) in t' {
      if j < i {
        var k :| 0 <= k < |t| && t[k] == Expected(t0, br, j);
        assert t'[k] == t[k];
      } else {
        assert t'[f] == Expected(t0, br, i);
      }
    }
  }

  lemma FilledOnce(t: seq<Wmark>, w: Wmark, f: nat)
    requires f < |t| && !Has(t, w.brid)
    requires forall k, l :: 0 <= k < l < |t| && 0 <= t[k].brid ==> t[k].brid != t[l].brid
    ensures var t' := t[f := w];
            forall k, l :: 0 <= k < l < |t'| && 0 <= t'[k].brid ==> t'[k].brid != t'[l].brid
  {
  }

  /** When every entry survived there is nothing to fill. */
  lemma AllSurvive(t0: seq<Wmark>, br: seq<Branch>)
    requires |t0| == |br| && BranchesOk(br) && forall k :: 0 <= k < |t0| ==> Survives(t0, br, k)
    ensures Invalidated(t0, br) == t0 && Reconciling(t0, t0, br, |t0|)
  {
  }

  // ---- what the reconciliation means

  lemma HasAll(t: seq<Wmark>, t0: seq<Wmark>, br: seq<Branch>)
    requires |t0| == |br| && Reconciling(t, t0, br, |t0|)
    ensures forall b <- br :: b.fhsm ==> Has(t, b.id)
  {
  }

  /** If all scanned branches take part, the table lists exactly their ids. */
  lemma ExactIds(t: seq<Wmark>, t0: seq<Wmark>, br: seq<Branch>)
    requires |t0| == |br| && BranchesOk(br) && Reconciling(t, t0, br, |t0|)
    requires forall i :: 0 <= i < |br| ==> br[i].fhsm
    ensures forall k :: 0 <= k < |t| ==> t[k].brid in Ids(br)
    ensures forall id <- Ids(br) :: Has(t, id)
    ensures forall k, l :: 0 <= k < l < |t| ==> t[k].brid != t[l].brid
  {
    HasAll(t, t0, br);
    forall k | 0 <= k < |t| ensures t[k].brid in Ids(br) {
      NoneToSpare(t, br, k);
    }
    forall k, l | 0 <= k < l < |t| ensures t[k].brid != t[l].brid {
      NoneToSpare(t, br, k);
    }
  }

  /** A table with as many entries as branches that has all ids has no other. */
  lemma NoneToSpare(t: seq<Wmark>, br: seq<Branch>, u: nat)
    requires |t| == |br| && u < |t|
    requires forall i, j :: 0 <= i < j < |br| ==> br[i].id != br[j].id
    requires forall id <- Ids(br) :: Has(t, id)
    ensures t[u].brid in Ids(br)
  {
    if t[u].brid !in Ids(br) {
      var rest := t[..u] + t[u + 1..];
      IdsCount(br);
      BridsAtMost(rest);
      forall id <- Ids(br) ensures id in Brids(rest) {
        var k :| 0 <= k < |t| && t[k].brid == id;
        assert t[k] == rest[if k < u then k else k - 1];
      }
      Subset(Ids(br), Brids(rest));
    }
  }

  lemma {:induction false} BridsAtMost(t: seq<Wmark>)
    ensures |Brids(t)| <= |t|
  {
    if t != [] {
      var n := |t| - 1;
      BridsAtMost(t[..n]);
      assert t == t[..n] + [t[n]];
      assert Brids(t) == Brids(t[..n]) + {t[n].brid};
    }
  }

  /** A branch that had an entry keeps its marks exactly when the entry stood at
      the place of the branch, or when the marks it is given instead happen to
      be the same. */
  lemma KeepsMarksIff(t: seq<Wmark>, t0: seq<Wmark>, br: seq<Branch>, k: nat, j: nat)
    requires |t0| == |br| && BranchesOk(br) && Reconciling(t, t0, br, |t0|)
    requires k < |t0| && j < |t0| && br[j].fhsm && t0[k].brid == br[j].id
    ensures t0[k] in t <==> k == j || Expected(t0, br, j) == t0[k]
  {
    if k == j {
      assert t[k] == t0[k];
    } else {
      ExpectedIn(t, t0, br, j);
      ReconciledNoneTwice(t, t0, br, |t0|);
      FoundIs(t, Expected(t0, br, j));
      if t0[k] in t { FoundIs(t, t0[k]); }
    }
  }

  lemma ExpectedIn(t: seq<Wmark>, t0: seq<Wmark>, br: seq<Branch>, j: nat)
    requires |t0| == |br| && BranchesOk(br) && Reconciling(t, t0, br, |t0|) && j < |t0| && br[j].fhsm
    ensures Expected(t0, br, j) in t && Expected(t0, br, j).brid == br[j].id >= 0
  {
  }

  /** A branch whose entry is not at its place gets the marks of the nearest branch
      before it whose entry is ... */
  lemma Inherited(t: seq<Wmark>, t0: seq<Wmark>, br: seq<Branch>, d: nat, j: nat)
    requires |t0| == |br| && BranchesOk(br) && Reconciling(t, t0, br, |t0|)
    requires d < j < |br| && br[j].fhsm && t0[j].brid != br[j].id && br[d].fhsm && t0[d].brid == br[d].id
    requires forall i :: d < i < j && br[i].fhsm ==> t0[i].brid != br[i].id
    ensures Wmark(br[j].id, t0[d].block, t0[d].inode) in t
  {
    assert Survives(t0, br, d) && !Survives(t0, br, j);
    assert Donor(t0, br, j) == d;
    assert Expected(t0, br, j) in t;
  }

  /** ... and the default ones when there is none. */
  lemma GetsDefault(t: seq<Wmark>, t0: seq<Wmark>, br: seq<Branch>, j: nat)
    requires |t0| == |br| && BranchesOk(br) && Reconciling(t, t0, br, |t0|)
    requires j < |br| && forall i :: 0 <= i <= j && br[i].fhsm ==> t0[i].brid != br[i].id
    ensures br[j].fhsm ==> WmInit(br[j]) in t
  {
    assert br[j].fhsm ==> Expected(t0, br, j) in t;
    assert Donor(t0, br, j) == -1;
  }

  /** Two branches in an order that is not that of their ids: both lose their marks. */
  lemma SwappedLoseMarks(a: Marks, b: Marks)
    ensures var t0 := [Wmark(1, a, a), Wmark(2, b, b)];
            var br := [Branch(2, true), Branch(1, true)];
      Expected(t0, br, 0) == WmInit(br[0]) && Expected(t0, br, 1) == WmInit(br[1])
  {
  }

  /** au_fhsm scans as many branches as take part in FHSM: those further down
      the mount are missed, so all are listed just when none is there. */
  lemma AllListedIff(t: seq<Wmark>, t0: seq<Wmark>, all: seq<Branch>)
    requires |t0| <= |all| && BranchesOk(all) && Reconciling(t, t0, all[..|t0|], |t0|)
    ensures (forall j :: 0 <= j < |all| && all[j].fhsm ==> Has(t, all[j].id))
       <==> (forall j :: |t0| <= j < |all| ==> !all[j].fhsm)
  {
  }

  /** Watermarks stay ratios: in a reconciled table, one that was resized, ... */
  lemma ExpectedRatios(t0: seq<Wmark>, br: seq<Branch>, t: seq<Wmark>)
    requires |t0| == |br| && RatiosOk(t0) && Reconciling(t, t0, br, |t0|)
    ensures RatiosOk(t)
  {
    forall k | 0 <= k < |t| ensures RatioOk(t[k].block) && RatioOk(t[k].inode) {
      if !Survives(t0, br, k) && t[k] != t0[k].(brid := -1) {
        var j :| 0 <= j < |t0| && br[j].fhsm && !Survives(t0, br, j) && t[k] == Expected(t0, br, j);
        var d := Donor(t0, br, j);
      }
    }
  }

  lemma ResizedRatios(t: seq<Wmark>, n: nat)
    ensures RatiosOk(t) ==> RatiosOk(Resized(t, n))
  {
  }

  /** ... one in another order, ... */
  lemma OrderedRatios(t: seq<Wmark>, t': seq<Wmark>)
    requires multiset(t) == multiset(t')
    ensures RatiosOk(t) ==> RatiosOk(t')
  {
    forall k | RatiosOk(t) && 0 <= k < |t'| ensures RatioOk(t'[k].block) && RatioOk(t'[k].inode) {
      assert t'[k] in multiset(t');
    }
  }

  /** ... and a new one. */
  lemma {:induction false} FreshRatios(br: seq<Branch>)
    ensures RatiosOk(Fresh(br))
  {
    if br != [] { FreshRatios(br[..|br| - 1]); }
  }

  // ---- order

  ghost predicate Sorted(t: seq<Wmark>) {
    forall i, j :: 0 <= i < j < |t| ==> t[i].brid <= t[j].brid
  }

  function Place(t: seq<Wmark>, w: Wmark): (r: seq<Wmark>)
    ensures |r| == |t| + 1
  {
    if t == [] then [w]
    else
      var n := |t| - 1;
      if t[n].brid <= w.brid then t + [w] else Place(t[..n], w) + [t[n]]
  }

  lemma {:induction false} PlacePermutes(t: seq<Wmark>, w: Wmark)
    ensures multiset(Place(t, w)) == multiset(t) + multiset{w}
  {
    if t != [] {
      var n := |t| - 1;
      assert t == t[..n] + [t[n]];
      PlacePermutes(t[..n], w);
    }
  }

  lemma {:induction false} PlaceSorts(t: seq<Wmark>, w: Wmark)
    requires Sorted(t)
    ensures Sorted(Place(t, w)) && multiset(Place(t, w)) == multiset(t) + multiset{w}
  {
    PlacePermutes(t, w);
    if t != [] {
      var n := |t| - 1;
      assert t == t[..n] + [t[n]];
      if w.brid < t[n].brid {
        PlaceSorts(t[..n], w);
        var r := Place(t[..n], w);
        forall i | 0 <= i < |r| ensures r[i].brid <= t[n].brid {
          assert r[i] in multiset(r);
        }
      }
    }
  }

  /** qsort(3) by branch id. */
  function SortedBy(t: seq<Wmark>): (r: seq<Wmark>)
    ensures |r| == |t|
  {
    if t == [] then [] else Place(SortedBy(t[..|t| - 1]), t[|t| - 1])
  }

  lemma {:induction false} SortedByOk(t: seq<Wmark>)
    ensures Sorted(SortedBy(t)) && multiset(SortedBy(t)) == multiset(t)
  {
    if t != [] {
      var n := |t| - 1;
      assert t == t[..n] + [t[n]];
      SortedByOk(t[..n]);
      PlaceSorts(SortedBy(t[..n]), t[n]);
    }
  }

  /** The least id comes first. */
  lemma LeastFirst(t: seq<Wmark>, w: Wmark)
    requires w in t
    ensures SortedBy(t) != [] && SortedBy(t)[0].brid <= w.brid
  {
    SortedByOk(t);
    assert w in multiset(SortedBy(t));
  }

  ghost predicate Unique(t: seq<Wmark>, brid: int) {
    forall k, l :: 0 <= k < l < |t| && t[k].brid == brid ==> t[l].brid != brid
  }

  /** In a sorted table bsearch(3) and the linear search agree: they find an
      entry for the same ids, and the same one when the id is not repeated. */
  method Search(t: array<Wmark>, brid: int) returns (i: nat)
    requires Sorted(t[..])
    ensures i < t.Length ==> t[i].brid == brid
    ensures i < t.Length <==> LFind(t[..], brid) < t.Length
    ensures i <= t.Length
    ensures Unique(t[..], brid) ==> i == LFind(t[..], brid)
  {
    var lo, hi := 0, t.Length;
    while lo < hi
      invariant lo <= hi <= t.Length
      invariant forall k :: 0 <= k < t.Length && t[..][k].brid == brid ==> lo <= k < hi
    {
      var mid := (lo + hi) / 2;
      var c := brid - t[mid].brid;
      assert t[mid] == t[..][mid];
      if c == 0 {
        return mid;
      } else if c < 0 {
        hi := mid;
      } else {
        lo := mid + 1;
      }
    }
    return t.Length;
  }

  /** The branches that take part in FHSM, as wm_init writes them. */
  function Fresh(br: seq<Branch>): (t: seq<Wmark>)
    ensures |t| <= |br|
  {
    if br == [] then []
    else Fresh(br[..|br| - 1]) + if br[|br| - 1].fhsm then [WmInit(br[|br| - 1])] else []
  }

  function Resized(t: seq<Wmark>, n: nat): (r: seq<Wmark>)
    ensures |r| == n
  {
    seq(n, k requires 0 <= k => if k < |t| then t[k] else NONE)
  }

  /** Shrinking cuts the table off, and growing adds free entries behind it. */
  lemma ResizedIs(t: seq<Wmark>, n: nat)
    ensures n <= |t| ==> Resized(t, n) == t[..n]
    ensures |t| <= n ==> t <= Resized(t, n) && forall k :: |t| <= k < n ==> Resized(t, n)[k].brid == -1
  {
  }

  /** The table after au_fhsm found it in shared memory, before it is sorted. */
  ghost predicate Reconciled(t: seq<Wmark>, t0: seq<Wmark>, br: seq<Branch>, nfhsm: nat)
    requires nfhsm <= |br|
  {
    Reconciling(t, Resized(t0, nfhsm), br[..nfhsm], nfhsm)
  }

  /** do_wmark: "UPPER-LOWER" in per cent used, both parsed. */
  predicate Percents(upper: real, lower: real) {
    0.0 <= upper <= 100.0 && 0.0 <= lower <= 100.0 && lower <= upper
  }

  function Ratio(upper: real, lower: real): Marks {
    Marks((100.0 - upper) / 100.0, (100.0 - lower) / 100.0)
  }

  /** Just these make ratios in order. */
  lemma RatioIsOk(upper: real, lower: real)
    ensures Percents(upper, lower) <==> RatioOk(Ratio(upper, lower))
  {
  }

  /** au_nfhsm: the branches that take part. */
  method Nfhsm(br: seq<Branch>) returns (nfhsm: nat)
    ensures nfhsm == |Fresh(br)|
  {
    nfhsm := 0;
    for i := 0 to |br|
      invariant nfhsm == |Fresh(br[..i])|
    {
      assert br[..i + 1][..i] == br[..i];
      if br[i].fhsm {
        nfhsm := nfhsm + 1;
      }
    }
    assert br[..|br|] == br;
  }

  // ---- no id is repeated

  /** No branch id stands in two entries; free entries may be many. */
  ghost predicate NoneTwice(t: seq<Wmark>) {
    forall brid :: 0 <= brid ==> Unique(t, brid)
  }

  lemma ReconciledNoneTwice(t: seq<Wmark>, t0: seq<Wmark>, br: seq<Branch>, i: nat)
    requires |t0| == |br| && i <= |t0| && Reconciling(t, t0, br, i)
    ensures NoneTwice(t)
  {
  }

  /** An entry of such a table is the one that is found for its id. */
  lemma FoundIs(t: seq<Wmark>, w: Wmark)
    requires NoneTwice(t) && 0 <= w.brid && w in t
    ensures Has(t, w.brid) && LFind(t, w.brid) < |t| && t[LFind(t, w.brid)] == w
  {
    var k :| 0 <= k < |t| && t[k] == w;
    assert Unique(t, w.brid);
  }

  lemma {:induction false} FreshIds(br: seq<Branch>)
    ensures forall w <- Fresh(br) :: w.brid in Ids(br)
  {
    if br != [] {
      var n := |br| - 1;
      FreshIds(br[..n]);
      assert br == br[..n] + [br[n]];
      assert Ids(br) == Ids(br[..n]) + {br[n].id};
    }
  }

  lemma {:induction false} FreshNoneTwice(br: seq<Branch>)
    requires BranchesOk(br)
    ensures NoneTwice(Fresh(br))
  {
    if br != [] {
      var n := |br| - 1;
      FreshNoneTwice(br[..n]);
      FreshIds(br[..n]);
      var t := Fresh(br[..n]);
      forall k, l | 0 <= k < l < |Fresh(br)| ensures Fresh(br)[k].brid != Fresh(br)[l].brid {
        assert t[k].brid in Ids(br[..n]) && 0 <= t[k].brid by { assert t[k] in t; FreshLegal(br[..n]); }
        assert Unique(t, t[k].brid);
      }
    }
  }

  /** A new table has the default entries of the branches that take part, and no other. */
  lemma {:induction false} FreshIs(br: seq<Branch>, w: Wmark)
    ensures w in Fresh(br) <==> exists i :: 0 <= i < |br| && br[i].fhsm && w == WmInit(br[i])
  {
    if br != [] {
      var n := |br| - 1;
      FreshIs(br[..n], w);
      if i :| 0 <= i < n && br[..n][i].fhsm && w == WmInit(br[..n][i]) { assert br[i].fhsm; }
      if i :| 0 <= i < n && br[i].fhsm && w == WmInit(br[i]) { assert br[..n][i].fhsm; }
    }
  }

  lemma {:induction false} FreshLegal(br: seq<Branch>)
    requires BranchesOk(br)
    ensures forall w <- Fresh(br) :: 0 <= w.brid
  {
    if br != [] { FreshLegal(br[..|br| - 1]); }
  }

  lemma ResizedNoneTwice(t: seq<Wmark>, n: nat)
    requires NoneTwice(t)
    ensures NoneTwice(Resized(t, n))
  {
    var r := Resized(t, n);
    forall k, l | 0 <= k < l < n && 0 <= r[k].brid ensures r[l].brid != r[k].brid {
      assert Unique(t, r[k].brid);
    }
  }

  /** An entry that is there twice is counted twice. */
  lemma {:induction false} CountedTwice(t: seq<Wmark>, w: Wmark)
    ensures 2 <= multiset(t)[w] <==> exists i, j :: 0 <= i < j < |t| && t[i] == t[j] == w
  {
    if t != [] {
      var n := |t| - 1;
      assert t == t[..n] + [t[n]];
      CountedTwice(t[..n], w);
      assert w in multiset(t[..n]) <==> w in t[..n];
    }
  }

  /** Two entries with one id are two entries with one id in any other order. */
  lemma RepeatMoves(t: seq<Wmark>, t': seq<Wmark>, k: nat, l: nat)
    requires multiset(t) == multiset(t') && k < l < |t'| && t'[k].brid == t'[l].brid
    ensures exists i, j :: 0 <= i < j < |t| && t[i].brid == t[j].brid == t'[k].brid
  {
    var v, w := t'[k], t'[l];
    if v == w {
      CountedTwice(t', w);
      CountedTwice(t, w);
    } else {
      assert w in multiset(t') && v in multiset(t');
      var i :| 0 <= i < |t| && t[i] == v;
      var j :| 0 <= j < |t| && t[j] == w;
      if j < i { assert t[j].brid == t[i].brid; }
    }
  }

  /** A permutation repeats no id either. */
  lemma OrderedNoneTwice(t: seq<Wmark>, t': seq<Wmark>)
    requires multiset(t) == multiset(t') && NoneTwice(t)
    ensures NoneTwice(t')
  {
    forall k, l | 0 <= k < l < |t'| && 0 <= t'[k].brid ensures t'[l].brid != t'[k].brid {
      assert Unique(t, t'[k].brid);
      if t'[l].brid == t'[k].brid { RepeatMoves(t, t', k, l); }
    }
  }

  /** struct aufhsm */
  class Fhsm {
    var wmark: array<Wmark>

    /** fhsm_create, with nfhsm entries for the branches that took part when they
        were counted. When more take part now the loop runs over the end of the
        array; what happens then is not part of this model. */
    static method Create(nfhsm: nat, br: seq<Branch>) returns (overrun: bool, f: Fhsm)
      ensures overrun <==> nfhsm < |Fresh(br)|
      ensures !overrun ==> f.wmark[..] == Resized(Fresh(br), nfhsm) && RatiosOk(f.wmark[..])
      ensures !overrun && BranchesOk(br) ==> NoneTwice(f.wmark[..])
      ensures fresh(f) && fresh(f.wmark)
    {
      f := new Fhsm.Map(seq(nfhsm, k => NONE));
      var wm := 0;
      for i := 0 to |br|
        invariant fresh(f) && fresh(f.wmark) && f.wmark.Length == nfhsm
        invariant wm == |Fresh(br[..i])| && f.wmark[..] == Resized(Fresh(br[..i]), nfhsm) && wm <= nfhsm
      {
        assert br[..i + 1][..i] == br[..i];
        FreshMono(br, i + 1);
        if br[i].fhsm {
          if wm == nfhsm {
            return true, f;
          }
          f.wmark[wm] := WmInit(br[i]);
          wm := wm + 1;
        }
      }
      assert br[..|br|] == br;
      FreshRatios(br);
      if BranchesOk(br) {
        FreshNoneTwice(br);
        ResizedNoneTwice(Fresh(br), nfhsm);
      }
      overrun := false;
    }

    /** What its only caller does: it counts the branches that it then passes on,
        so there is neither an overrun nor a free entry. */
    static method CreateCounted(br: seq<Branch>) returns (overrun: bool, f: Fhsm)
      ensures !overrun && fresh(f) && fresh(f.wmark) && f.wmark[..] == Fresh(br) && RatiosOk(f.wmark[..])
      ensures BranchesOk(br) ==> NoneTwice(f.wmark[..])
    {
      var nfhsm := Nfhsm(br);
      overrun, f := Create(nfhsm, br);
    }

    /** au_fhsm when there was no table yet. */
    static method New(br: seq<Branch>) returns (f: Fhsm)
      requires BranchesOk(br)
      ensures fresh(f) && fresh(f.wmark) && multiset(f.wmark[..]) == multiset(Fresh(br))
      ensures Sorted(f.wmark[..]) && NoneTwice(f.wmark[..]) && RatiosOk(f.wmark[..])
    {
      var overrun;
      overrun, f := CreateCounted(br);
      f.Sort();
    }

    constructor Map(t: seq<Wmark>)
      ensures fresh(wmark) && wmark[..] == t
    {
      wmark := new Wmark[|t|](i requires 0 <= i < |t| => t[i]);
    }

    /** fhsm_expand and fhsm_shrink */
    method Resize(nfhsm: nat)
      modifies this`wmark
      ensures fresh(wmark) && wmark[..] == Resized(old(wmark[..]), nfhsm)
    {
      var old_ := wmark;
      wmark := new Wmark[nfhsm](i requires 0 <= i reads old_ => if i < old_.Length then old_[i] else NONE);
    }

    /** fhsm_invalid, as it is: the inner loop looks at branch i every time. */
    method Invalid(br: seq<Branch>, nbr: nat) returns (err: nat)
      requires nbr == wmark.Length <= |br|
      modifies wmark
      ensures wmark[..] == Invalidated(old(wmark[..]), br[..nbr])
      ensures err == 0 <==> forall k :: 0 <= k < nbr ==> Survives(old(wmark[..]), br[..nbr], k)
    {
      err := 0;
      ghost var t := wmark[..];
      for i := 0 to wmark.Length
        invariant forall k :: 0 <= k < wmark.Length ==>
          wmark[k] == if k < i then Invalidated(t, br[..nbr])[k] else t[k]
        invariant err == 0 <==> forall k :: 0 <= k < i ==> Survives(t, br[..nbr], k)
      {
        assert br[..nbr][i] == br[i] && wmark[i] == t[i];
        if wmark[i].brid < 0 {
          assert !Survives(t, br[..nbr], i);
          err := err + 1;
          continue;
        }
        var found, j := false, 0;
        while !found && j < nbr
          invariant j <= nbr && (found ==> wmark[i].brid == br[i].id)
          invariant !found && 0 < j ==> wmark[i].brid != br[i].id
        {
          found := wmark[i].brid == br[i].id;
          j := j + 1;
        }
        assert found <==> Survives(t, br[..nbr], i);
        if !found {
          wmark[i] := wmark[i].(brid := -1);
          err := err + 1;
        }
      }
    }

    /** fhsm_reinit; `ok` is false for its two "should not happen" exits. */
    method Reinit(br: seq<Branch>, nbr: nat, ghost t0: seq<Wmark>) returns (ok: bool)
      requires nbr == wmark.Length <= |br| && |t0| == nbr && BranchesOk(br[..nbr])
      requires Reconciling(wmark[..], t0, br[..nbr], 0)
      modifies wmark
      ensures ok && Reconciling(wmark[..], t0, br[..nbr], nbr)
    {
      var prev := -1;
      ok := true;
      for i := 0 to nbr
        invariant ok && Reconciling(wmark[..], t0, br[..nbr], i) && prev == Donor(t0, br[..nbr], i)
      {
        ReinitStep(wmark[..], t0, br[..nbr], i);
        prev, ok := One(br[i], prev);
        if !ok { return; }
      }
    }

    method One(b: Branch, prev: int) returns (prev': int, ok: bool)
      requires -1 <= prev < wmark.Length
      modifies wmark
      ensures (wmark[..], prev', ok) == ReinitOne(old(wmark[..]), prev, b)
    {
      prev', ok := prev, true;
      if !b.fhsm {
        return;
      }
      if b.id < 0 {
        return prev, false;
      }
      var wm := Find(b.id);
      if wm < wmark.Length {
        return wm, true;
      }
      wm := Find(-1);
      if wm == wmark.Length {
        return prev, false;
      }
      wmark[wm] := if prev < 0 then WmInit(b) else Wmark(b.id, wmark[prev].block, wmark[prev].inode);
    }

    /** au_wm_lfind */
    method Find(brid: int) returns (k: nat)
      ensures k == LFind(wmark[..], brid)
    {
      k := 0;
      while k < wmark.Length
        invariant k <= wmark.Length && k + LFind(wmark[k..], brid) == LFind(wmark[..], brid)
      {
        if wmark[k].brid == brid {
          return;
        }
        assert wmark[k..][1..] == wmark[k + 1..];
        k := k + 1;
      }
    }

    /** au_fhsm_sort_brid */
    method Sort()
      modifies wmark
      ensures Sorted(wmark[..]) && multiset(wmark[..]) == multiset(old(wmark[..]))
      ensures RatiosOk(old(wmark[..])) ==> RatiosOk(wmark[..])
      ensures NoneTwice(old(wmark[..])) ==> NoneTwice(wmark[..])
    {
      var t := wmark[..];
      SortedByOk(t);
      OrderedRatios(t, SortedBy(t));
      if NoneTwice(t) { OrderedNoneTwice(t, SortedBy(t)); }
      Write(SortedBy(t));
    }

    method Write(r: seq<Wmark>)
      requires |r| == wmark.Length
      modifies wmark
      ensures wmark[..] == r
    {
      for i := 0 to wmark.Length
        invariant wmark[..i] == r[..i]
      {
        wmark[i] := r[i];
      }
    }

    /** au_fhsm on an existing table: resized, reconciled, sorted; never fails. */
    method Update(br: seq<Branch>, nfhsm: nat) returns (ghost t: seq<Wmark>)
      requires nfhsm <= |br| && BranchesOk(br[..nfhsm])
      requires forall w <- wmark[..] :: -1 <= w.brid
      modifies this, wmark
      ensures Reconciled(t, old(wmark[..]), br, nfhsm)
      ensures Sorted(wmark[..]) && multiset(wmark[..]) == multiset(t) && NoneTwice(wmark[..])
      ensures RatiosOk(old(wmark[..])) ==> RatiosOk(wmark[..])
    {
      ResizedRatios(wmark[..], nfhsm);
      Resize(nfhsm);
      ghost var t0 := wmark[..];
      InvalidatedStart(t0, br[..nfhsm]);
      var invalid := Invalid(br, nfhsm);
      if invalid != 0 {
        var ok := Reinit(br, nfhsm, t0);
      } else {
        AllSurvive(t0, br[..nfhsm]);
      }
      t := wmark[..];
      if RatiosOk(t0) { ExpectedRatios(t0, br[..nfhsm], t); }
      ReconciledNoneTwice(t, t0, br[..nfhsm], nfhsm);
      Sort();
    }

    /** The administrator's edit of one entry. */
    method EditOne(brid: int, upper: real, lower: real, inode: bool) returns (ok: bool)
      modifies wmark
      ensures ok <==> LFind(old(wmark[..]), brid) == wmark.Length || Percents(upper, lower)
      ensures !ok ==> wmark[..] == old(wmark[..])
      ensures ok ==> wmark[..] == Edited(old(wmark[..]), LFind(old(wmark[..]), brid), upper, lower, inode)
      ensures RatiosOk(old(wmark[..])) ==> RatiosOk(wmark[..])
      ensures Sorted(old(wmark[..])) ==> Sorted(wmark[..])
    {
      ok := true;
      var k := Find(brid);
      if k < wmark.Length {
        ok := Percents(upper, lower);
        if ok {
          EditKeeps(wmark[..], k, upper, lower, inode);
          wmark[k] := Mark(wmark[k], Ratio(upper, lower), inode);
        }
      }
    }

    /** ... and of all entries: the first one is set and copied down the table. */
    method EditAll(upper: real, lower: real, inode: bool) returns (ok: bool)
      requires 0 < wmark.Length
      modifies wmark
      ensures ok <==> Percents(upper, lower)
      ensures !ok ==> wmark[..] == old(wmark[..])
      ensures ok ==> wmark[..] == EditedAll(old(wmark[..]), upper, lower, inode)
      ensures RatiosOk(old(wmark[..])) ==> RatiosOk(wmark[..])
      ensures Sorted(old(wmark[..])) ==> Sorted(wmark[..])
    {
      ok := Percents(upper, lower);
      if !ok { return; }
      EditAllKeeps(wmark[..], upper, lower, inode);
      wmark[0] := Mark(wmark[0], Ratio(upper, lower), inode);
      for i := 1 to wmark.Length
        invariant forall k :: 0 <= k < wmark.Length ==>
          wmark[k] == if k < i then Mark(old(wmark[k]), Ratio(upper, lower), inode) else old(wmark[k])
      {
        wmark[i] := if inode then wmark[i].(inode := wmark[i - 1].inode) else wmark[i].(block := wmark[i - 1].block);
      }
      assert wmark[..] == EditedAll(old(wmark[..]), upper, lower, inode);
    }
  }

  function Mark(w: Wmark, m: Marks, inode: bool): Wmark {
    if inode then w.(inode := m) else w.(block := m)
  }

  function Edited(t: seq<Wmark>, k: nat, upper: real, lower: real, inode: bool): seq<Wmark> {
    if k < |t| then t[k := Mark(t[k], Ratio(upper, lower), inode)] else t
  }

  function EditedAll(t: seq<Wmark>, upper: real, lower: real, inode: bool): seq<Wmark> {
    seq(|t|, k requires 0 <= k < |t| => Mark(t[k], Ratio(upper, lower), inode))
  }

  /** An edit changes the one mark of the one entry ... */
  lemma EditedOnly(t: seq<Wmark>, k: nat, upper: real, lower: real, inode: bool)
    requires k < |t|
    ensures var t' := Edited(t, k, upper, lower, inode);
      && |t'| == |t| && (forall l :: 0 <= l < |t| && l != k ==> t'[l] == t[l])
      && t'[k].brid == t[k].brid && (if inode then t'[k].block == t[k].block else t'[k].inode == t[k].inode)
  {
  }

  /** ... and that of all is the edit of each. */
  lemma EditedAllIs(t: seq<Wmark>, k: nat, upper: real, lower: real, inode: bool)
    requires k < |t|
    ensures |EditedAll(t, upper, lower, inode)| == |t|
    ensures EditedAll(t, upper, lower, inode)[k] == Edited(t, k, upper, lower, inode)[k]
  {
  }

  /** Each edit keeps the order, and the ratios. */
  lemma EditKeeps(t: seq<Wmark>, k: nat, upper: real, lower: real, inode: bool)
    requires Percents(upper, lower)
    ensures RatiosOk(t) ==> RatiosOk(Edited(t, k, upper, lower, inode))
    ensures Sorted(t) ==> Sorted(Edited(t, k, upper, lower, inode))
  {
    RatioIsOk(upper, lower);
  }

  lemma EditAllKeeps(t: seq<Wmark>, upper: real, lower: real, inode: bool)
    requires Percents(upper, lower)
    ensures RatiosOk(t) ==> RatiosOk(EditedAll(t, upper, lower, inode))
    ensures Sorted(t) ==> Sorted(EditedAll(t, upper, lower, inode))
  {
    RatioIsOk(upper, lower);
  }

  lemma {:induction false} FreshMono(br: seq<Branch>, i: nat)
    requires i <= |br|
    ensures |Fresh(br[..i])| <= |Fresh(br)|
    decreases |br| - i
  {
    if i < |br| {
      assert br[..i + 1][..i] == br[..i];
      FreshMono(br, i + 1);
    } else {
      assert br[..i] == br;
    }
  }

  // ---- who is over the watermark

  /** The ratios of test_usage, multiplied out. */
  predicate Over(w: Wmark, bavail: nat, blocks: nat, ffree: nat, files: nat) {
    || bavail as real < w.block.upper * blocks as real
    || (w.inode.upper < 1.0 && ffree as real < w.inode.upper * files as real)
  }

  /** More than `percent` of the total is used. */
  ghost predicate UsedOver(percent: real, avail: nat, total: nat) {
    percent * total as real < 100.0 * (total as real - avail as real)
  }

  /** What an edit means: the branch is over when more than UPPER per cent of the
      blocks, or of the inodes, are used; UPPER 0 for inodes switches that off. */
  lemma EditedOver(w: Wmark, upper: real, lower: real, bavail: nat, blocks: nat, ffree: nat, files: nat)
    requires Percents(upper, lower)
    ensures w.inode.upper == 1.0 ==>
      (Over(Mark(w, Ratio(upper, lower), false), bavail, blocks, ffree, files) <==> UsedOver(upper, bavail, blocks))
    ensures w.block.upper == 0.0 ==>
      (Over(Mark(w, Ratio(upper, lower), true), bavail, blocks, ffree, files) <==>
        0.0 < upper && UsedOver(upper, ffree, files))
  {
    var u := Ratio(upper, lower).upper;
    assert 100.0 * u == 100.0 - upper;
    HundredTimes(u, upper, blocks as real);
    HundredTimes(u, upper, files as real);
  }

  lemma HundredTimes(u: real, upper: real, total: real)
    requires 100.0 * u == 100.0 - upper
    ensures 100.0 * (u * total) == 100.0 * total - upper * total
  {
    assert 100.0 * (u * total) == (100.0 * u) * total;
    assert (100.0 - upper) * total == 100.0 * total - upper * total;
  }

  /** Without an edit it is over when more than three quarters of the blocks are used. */
  lemma DefaultOver(br: Branch, bavail: nat, blocks: nat, ffree: nat, files: nat)
    ensures Over(WmInit(br), bavail, blocks, ffree, files) <==> 4 * bavail < blocks
  {
  }

  /** What test_usage says with the table that au_fhsm creates, in any order. */
  lemma NewUsage(t: seq<Wmark>, br: seq<Branch>, brid: nat, bavail: nat, blocks: nat, ffree: nat, files: nat)
    requires BranchesOk(br) && multiset(t) == multiset(Fresh(br)) && NoneTwice(t)
    ensures Has(t, brid) && Over(t[LFind(t, brid)], bavail, blocks, ffree, files) <==>
      4 * bavail < blocks && exists i :: 0 <= i < |br| && br[i].fhsm && br[i].id == brid
  {
    if i :| 0 <= i < |br| && br[i].fhsm && br[i].id == brid {
      FreshIs(br, WmInit(br[i]));
      assert WmInit(br[i]) in multiset(t);
      FoundIs(t, WmInit(br[i]));
      DefaultOver(br[i], bavail, blocks, ffree, files);
    } else if Has(t, brid) {
      var k :| 0 <= k < |t| && t[k].brid == brid;
      assert t[k] in multiset(t);
      FreshIs(br, t[k]);
      assert false;
    }
  }

  /** test_usage on a table in order. */
  method TestUsage(t: array<Wmark>, brid: int, bavail: nat, blocks: nat, ffree: nat, files: nat) returns (over: bool)
    requires Sorted(t[..]) && Unique(t[..], brid)
    ensures over == (Has(t[..], brid) && Over(t[..][LFind(t[..], brid)], bavail, blocks, ffree, files))
  {
    var i := Search(t, brid);
    if i == t.Length {
      return false;
    }
    var w := t[i];
    assert t[..][i] == w;
    return Over(w, bavail, blocks, ffree, files);
  }
}
