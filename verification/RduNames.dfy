/** Names of directory entries and the three comparators of rdu_lib.c. */
module RduNames {
  import opened Basics

  type Name = seq<Byte>

  /** A C string holds no NUL before its end. */
  ghost predicate NulFree(s: Name) {
    forall i :: 0 <= i < |s| ==> s[i] != 0
  }

  /** strcmp(3): the terminator compares below every other byte. */
  function StrCmp(a: Name, b: Name): int {
    if a == [] then (if b == [] then 0 else -b[0])
    else if b == [] then a[0]
    else if a[0] != b[0] then a[0] - b[0]
    else StrCmp(a[1..], b[1..])
  }

  lemma {:induction false} StrCmpZero(a: Name, b: Name)
    requires NulFree(a) && NulFree(b)
    ensures StrCmp(a, b) == 0 <==> a == b
  {
    if a != [] && b != [] && a[0] == b[0] {
      StrCmpZero(a[1..], b[1..]);
      assert a == [a[0]] + a[1..] && b == [b[0]] + b[1..];
    }
  }

  lemma {:induction false} StrCmpFlip(a: Name, b: Name)
    ensures StrCmp(a, b) == -StrCmp(b, a)
  {
    if a != [] && b != [] && a[0] == b[0] {
      StrCmpFlip(a[1..], b[1..]);
    }
  }

  lemma {:induction false} StrCmpTrans(a: Name, b: Name, c: Name)
    requires NulFree(a) && NulFree(b) && NulFree(c)
    requires StrCmp(a, b) < 0 && StrCmp(b, c) < 0
    ensures StrCmp(a, c) < 0
  {
    if a != [] && b != [] && c != [] && a[0] == b[0] == c[0] {
      StrCmpTrans(a[1..], b[1..], c[1..]);
    }
  }

  /** Byte k of a C string; the terminator behind its end. */
  function ByteAt(s: Name, k: nat): Byte {
    if k < |s| then s[k] else 0
  }

  /** The order is that of the first bytes that differ. */
  lemma {:induction false} StrCmpFirst(a: Name, b: Name, k: nat)
    requires k <= |a| && k <= |b| && a[..k] == b[..k] && ByteAt(a, k) != ByteAt(b, k)
    ensures StrCmp(a, b) == ByteAt(a, k) - ByteAt(b, k)
  {
    if 0 < k {
      assert a[0] == a[..k][0] == b[..k][0] == b[0];
      assert a[1..][..k - 1] == a[..k][1..] == b[..k][1..] == b[1..][..k - 1];
      StrCmpFirst(a[1..], b[1..], k - 1);
    }
  }

  /** AUFS_WH_PFX, ".wh." */
  const WH_PFX: Name := [46, 119, 104, 46]

  /** The test in rdu_merge; a file called just ".wh." is an ordinary one. */
  predicate IsWh(n: Name) {
    4 < |n| && n[..4] == WH_PFX
  }

  function Strip(n: Name): Name
    requires 4 <= |n|
  {
    n[4..]
  }

  /** The whiteouts are the names with the prefix and something behind it. */
  lemma WhIff(n: Name)
    ensures IsWh(n) <==> exists m: Name :: m != [] && n == WH_PFX + m
    ensures IsWh(n) ==> n == WH_PFX + Strip(n)
  {
    if IsWh(n) { assert Strip(n) != [] && n == WH_PFX + Strip(n); }
  }

  lemma StripInjective(a: Name, b: Name)
    requires IsWh(a) && IsWh(b)
    ensures Strip(a) == Strip(b) <==> a == b
  {
  }

  datatype Order = Real | Wh1 | Wh2

  /** rdu_ent_compar, rdu_ent_compar_wh1 and rdu_ent_compar_wh2. */
  function Compar(o: Order, a: Name, b: Name): int
    requires o.Wh1? && !IsWh(a) ==> 4 <= |b|
    requires o.Wh2? ==> 4 <= |a| && 4 <= |b|
  {
    match o
    case Real => StrCmp(a, b)
    case Wh1 => if !IsWh(a) then StrCmp(a, Strip(b)) else StrCmp(Strip(a), b)
    case Wh2 => StrCmp(Strip(a), Strip(b))
  }

  /** The comparator of the search agrees with the order of the whiteout tree:
      looking for a name is looking for its whiteout. */
  lemma SearchAgrees(r: Name, w: Name)
    requires !IsWh(r) && IsWh(w)
    ensures Compar(Wh1, r, w) == Compar(Wh2, WH_PFX + r, w)
  {
  }

  /** It may be called with its arguments in either order. */
  lemma SearchFlips(r: Name, w: Name)
    requires !IsWh(r) && IsWh(w)
    ensures Compar(Wh1, r, w) == -Compar(Wh1, w, r)
  {
    StrCmpFlip(r, Strip(w));
  }

  // ---- the trees of tsearch(3)

  /** A node of a tree is a pointer to an entry, here with the name found there. */
  datatype Ent = Ent(at: nat, name: Name)
  datatype Tree = Leaf | Node(left: Tree, ent: Ent, right: Tree)

  ghost function Names(t: Tree): set<Name> {
    match t
    case Leaf => {}
    case Node(l, e, r) => Names(l) + {e.name} + Names(r)
  }

  /** Names that the comparator o can order: C strings, whiteouts for Wh2. */
  ghost predicate Fits(o: Order, n: Name) {
    NulFree(n) && (o != Real ==> IsWh(n))
  }

  ghost predicate Ordered(o: Order, t: Tree)
    requires o != Wh1
  {
    match t
    case Leaf => true
    case Node(l, e, r) =>
      && Ordered(o, l) && Ordered(o, r) && Fits(o, e.name)
      && (forall n <- Names(l) :: Fits(o, n) && Compar(o, n, e.name) < 0)
      && (forall n <- Names(r) :: Fits(o, n) && Compar(o, e.name, n) < 0)
  }

  lemma ComparTrans(o: Order, a: Name, b: Name, c: Name)
    requires o != Wh1 && Fits(o, a) && Fits(o, b) && Fits(o, c)
    requires Compar(o, a, b) < 0 && Compar(o, b, c) < 0
    ensures Compar(o, a, c) < 0
  {
    if o.Real? { StrCmpTrans(a, b, c); } else { StrCmpTrans(Strip(a), Strip(b), Strip(c)); }
  }

  lemma ComparFlip(o: Order, a: Name, b: Name)
    requires o != Wh1 && Fits(o, a) && Fits(o, b)
    ensures Compar(o, a, b) == -Compar(o, b, a)
    ensures Compar(o, a, b) == 0 <==> a == b
  {
    if o.Real? {
      StrCmpFlip(a, b);
      StrCmpZero(a, b);
    } else {
      StrCmpFlip(Strip(a), Strip(b));
      StrCmpZero(Strip(a), Strip(b));
      StripInjective(a, b);
    }
  }

  /** The tree after tsearch: unchanged when the key is there already. */
  function Insert(o: Order, t: Tree, e: Ent): Tree
    requires o != Wh1 && (o.Wh2? ==> 4 <= |e.name|)
    requires Ordered(o, t)
  {
    match t
    case Leaf => Node(Leaf, e, Leaf)
    case Node(l, m, r) =>
      var c := Compar(o, e.name, m.name);
      if c == 0 then t
      else if c < 0 then Node(Insert(o, l, e), m, r)
      else Node(l, m, Insert(o, r, e))
  }

  lemma {:induction false} InsertIsUnion(o: Order, t: Tree, e: Ent)
    requires o != Wh1 && Ordered(o, t) && Fits(o, e.name)
    ensures Names(Insert(o, t, e)) == Names(t) + {e.name}
    ensures Ordered(o, Insert(o, t, e))
  {
    match t
    case Leaf =>
    case Node(l, m, r) =>
      ComparFlip(o, e.name, m.name);
      if Compar(o, e.name, m.name) < 0 {
        InsertIsUnion(o, l, e);
      } else {
        InsertIsUnion(o, r, e);
      }
  }

  /** Below a node, a key lies only on the side its comparison points to. */
  lemma Side(o: Order, t: Tree, n: Name)
    requires o != Wh1 && t.Node? && Ordered(o, t) && Fits(o, n)
    ensures Compar(o, n, t.ent.name) < 0 ==> n !in Names(t.right) && n != t.ent.name
    ensures Compar(o, n, t.ent.name) > 0 ==> n !in Names(t.left) && n != t.ent.name
    ensures Compar(o, n, t.ent.name) == 0 <==> n == t.ent.name
  {
    ComparFlip(o, n, t.ent.name);
  }
}
