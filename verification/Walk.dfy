/**
 The order in which walk visits inodes. Breadth-first from the root with sorted
 children is the same as sorting the non-alias paths by depth and then by name.
 */
module Walk {
  import opened Wrappers
  import opened Bytes
  import opened Sorting
  import opened TarTree
  import opened TarInvariant

  /** Component by component, by name. */
  predicate PathLt(a: Path, b: Path) {
    b != [] && (a == [] || Lt(a[0], b[0]) || (a[0] == b[0] && PathLt(a[1..], b[1..])))
  }

  /** Shallower paths first, then by name. */
  predicate Before(a: Path, b: Path) {
    |a| < |b| || (|a| == |b| && PathLt(a, b))
  }

  lemma {:induction false} PathLtTrans(a: Path, b: Path, c: Path)
    requires PathLt(a, b) && PathLt(b, c)
    ensures PathLt(a, c)
  {
    if a != [] {
      LtTotal(a[0], b[0]);
      LtTotal(b[0], c[0]);
      if Lt(a[0], b[0]) && Lt(b[0], c[0]) {
        LtTrans(a[0], b[0], c[0]);
      } else if a[0] == b[0] == c[0] {
        PathLtTrans(a[1..], b[1..], c[1..]);
      }
    }
  }

  lemma {:induction false} PathLtIrrefl(a: Path)
    ensures !PathLt(a, a)
  {
    if a != [] {
      LtIrrefl(a[0]);
      PathLtIrrefl(a[1..]);
    }
  }

  lemma {:induction false} PathLtTotal(a: Path, b: Path)
    ensures a == b || PathLt(a, b) || PathLt(b, a)
  {
    if a != [] && b != [] {
      LtTotal(a[0], b[0]);
      if a[0] == b[0] {
        PathLtTotal(a[1..], b[1..]);
        assert a == [a[0]] + a[1..] && b == [b[0]] + b[1..];
      }
    }
  }

  lemma BeforeIsOrder()
    ensures StrictTotal(Before)
  {
    forall a ensures !Before(a, a) {
      PathLtIrrefl(a);
    }
    forall a, b ensures a == b || Before(a, b) || Before(b, a) {
      PathLtTotal(a, b);
    }
    forall a, b, c | Before(a, b) && Before(b, c) ensures Before(a, c) {
      if |a| == |b| == |c| {
        PathLtTrans(a, b, c);
      }
    }
  }

  lemma LtIsOrder()
    ensures StrictTotal(Lt)
  {
    forall a ensures !Lt(a, a) {
      LtIrrefl(a);
    }
    forall a, b ensures a == b || Lt(a, b) || Lt(b, a) {
      LtTotal(a, b);
    }
    forall a, b, c | Lt(a, b) && Lt(b, c) ensures Lt(a, c) {
      LtTrans(a, b, c);
    }
  }

  /** Every inode: the nodes that are not aliases. */
  ghost function Inodes(t: Tree): set<Path> {
    set p | p in t && t[p].hardTo == None
  }

  ghost function WalkOrder(t: Tree): (w: seq<Path>)
    ensures IsSortOf(Before, Inodes(t), w)
  {
    BeforeIsOrder();
    SortSet(Before, Inodes(t))
  }

  lemma InWalk(t: Tree, p: Path)
    ensures p in WalkOrder(t) <==> p in t && t[p].hardTo == None
  {
    assert p in WalkOrder(t) <==> p in Elements(WalkOrder(t));
  }

  lemma RootFirst(t: Tree)
    requires Shape(t)
    ensures WalkOrder(t) != [] && WalkOrder(t)[0] == []
  {
    BeforeIsOrder();
    var w := WalkOrder(t);
    InWalk(t, []);
    var i :| 0 <= i < |w| && w[i] == [];
    assert i > 0 ==> Before(w[0], w[i]);
  }

  ghost function ChildNames(t: Tree, p: Path): set<Name> {
    set q | q in t && IsChild(p, q) :: Base(q)
  }

  lemma ChildName(t: Tree, p: Path, n: Name)
    ensures n in ChildNames(t, p) <==> p + [n] in t
  {
    if n in ChildNames(t, p) {
      var q :| q in t && IsChild(p, q) && Base(q) == n;
      assert q == p + [n];
    }
    if p + [n] in t {
      assert IsChild(p, p + [n]) && Base(p + [n]) == n;
    }
  }

  lemma CanonicalInWalk(t: Tree, p: Path)
    requires Shape(t) && p in t
    ensures Canonical(t, p) in t && Canonical(t, p) in WalkOrder(t)
    ensures RealDir(t, Canonical(t, p)) <==> RealDir(t, p)
    ensures RealDir(t, p) ==> Canonical(t, p) == p
  {
    InWalk(t, Canonical(t, p));
  }

  // ---------------------------------------------------------------- breadth-first search

  /** The non-alias children of p with the given names, in that order. */
  ghost function KidPaths(t: Tree, p: Path, ns: seq<Name>): seq<Path> {
    if ns == [] then
      []
    else
      var init, q := KidPaths(t, p, ns[..|ns| - 1]), p + [ns[|ns| - 1]];
      if q in t && t[q].hardTo == None then init + [q] else init
  }

  lemma KidPathsNext(t: Tree, p: Path, ns: seq<Name>, i: nat)
    requires i < |ns|
    ensures var q := p + [ns[i]];
            KidPaths(t, p, ns[..i + 1]) == KidPaths(t, p, ns[..i]) + (if q in t && t[q].hardTo == None then [q] else [])
  {
    assert ns[..i + 1][..i] == ns[..i];
  }

  lemma {:induction false} KidPathsIn(t: Tree, p: Path, ns: seq<Name>)
    ensures forall q :: q in KidPaths(t, p, ns) <==>
              exists i :: 0 <= i < |ns| && q == p + [ns[i]] && q in t && t[q].hardTo == None
  {
    if ns != [] {
      var init, n := ns[..|ns| - 1], ns[|ns| - 1];
      KidPathsIn(t, p, init);
      assert forall i :: 0 <= i < |init| ==> init[i] == ns[i];
    }
  }

  lemma SiblingsOrdered(p: Path, a: Name, b: Name)
    requires Lt(a, b)
    ensures Before(p + [a], p + [b])
  {
    PathLtAppend(p, p, a, b);
  }

  /** Same depth: the order of the parents decides, then the order of the names. */
  lemma {:induction false} PathLtAppend(p: Path, q: Path, a: Name, b: Name)
    requires |p| == |q| && (PathLt(p, q) || (p == q && Lt(a, b)))
    ensures PathLt(p + [a], q + [b])
  {
    if p != [] {
      assert (p + [a])[1..] == p[1..] + [a] && (q + [b])[1..] == q[1..] + [b];
      if p[0] == q[0] {
        LtIrrefl(p[0]);
        assert p != q || Lt(a, b) || PathLt(p[1..], q[1..]);
        PathLtAppend(p[1..], q[1..], a, b);
      }
    }
  }

  lemma {:induction false} KidPathsSorted(t: Tree, p: Path, ns: seq<Name>)
    requires Sorted(Lt, ns)
    ensures Sorted(Before, KidPaths(t, p, ns))
  {
    if ns != [] {
      var init, n := ns[..|ns| - 1], ns[|ns| - 1];
      KidPathsSorted(t, p, init);
      KidPathsIn(t, p, init);
      forall q | q in KidPaths(t, p, init) ensures Before(q, p + [n]) {
        var i :| 0 <= i < |init| && q == p + [init[i]];
        SiblingsOrdered(p, init[i], n);
      }
    }
  }

  /** A node's children come after everything at most as deep whose parent comes earlier. */
  lemma ChildAfter(x: Path, n: Path, c: Name)
    requires x == [] || Before(Parent(x), n)
    ensures Before(x, n + [c])
  {
    if x != [] && |Parent(x)| == |n| {
      PathLtAppend(Parent(x), n, Base(x), c);
      assert x == Parent(x) + [Base(x)];
    }
  }

  /** Visited and queued nodes, together in walk order; everything whose parent was visited is among them. */
  ghost predicate WalkInv(t: Tree, v: seq<Path>, q: seq<Path>) {
    && Sorted(Before, v + q)
    && (forall p :: p in v + q ==> p in Inodes(t))
    && (forall p :: p in v + q && p != [] ==> Parent(p) in v)
    && [] in v + q
    && (forall p :: p in Inodes(t) && p != [] && Parent(p) in v ==> p in v + q)
  }

  lemma WalkStarts(t: Tree)
    requires Shape(t)
    ensures WalkInv(t, [], [[]])
  {
  }

  lemma SortedConcat(a: seq<Path>, b: seq<Path>)
    requires Sorted(Before, a) && Sorted(Before, b)
    requires forall x, y :: x in a && y in b ==> Before(x, y)
    ensures Sorted(Before, a + b)
  {
    forall i, j | 0 <= i < j < |a + b| ensures Before((a + b)[i], (a + b)[j]) {
      if i < |a| <= j {
        assert a[i] in a && b[j - |a|] in b;
      } else if i >= |a| {
        assert (a + b)[i] == b[i - |a|];
      }
    }
  }

  lemma KidsAfterAll(t: Tree, v: seq<Path>, q: seq<Path>, ns: seq<Name>)
    requires WalkInv(t, v, q) && q != []
    ensures forall x, y :: x in v + q && y in KidPaths(t, q[0], ns) ==> Before(x, y)
  {
    KidPathsIn(t, q[0], ns);
    forall x, y | x in v + q && y in KidPaths(t, q[0], ns) ensures Before(x, y) {
      var i :| 0 <= i < |ns| && y == q[0] + [ns[i]];
      if x != [] {
        var k :| 0 <= k < |v| && v[k] == Parent(x);
        assert Before((v + q)[k], (v + q)[|v|]);
      }
      ChildAfter(x, q[0], ns[i]);
    }
  }

  lemma WalkSteps(t: Tree, v: seq<Path>, q: seq<Path>, ns: seq<Name>)
    requires Shape(t) && WalkInv(t, v, q) && q != []
    requires if RealDir(t, q[0]) then IsSortOf(Lt, ChildNames(t, q[0]), ns) else ns == []
    ensures WalkInv(t, v + [q[0]], q[1..] + KidPaths(t, q[0], ns))
  {
    var n, kids := q[0], KidPaths(t, q[0], ns);
    var v', q' := v + [n], q[1..] + kids;
    assert v' + q' == (v + q) + kids;
    KidPathsIn(t, n, ns);
    KidPathsSorted(t, n, ns);
    KidsAfterAll(t, v, q, ns);
    SortedConcat(v + q, kids);
    forall p | p in v' + q' && p != [] ensures Parent(p) in v' {
      if p in kids {
        var i :| 0 <= i < |ns| && p == n + [ns[i]];
        assert Parent(p) == n;
      }
    }
    forall p | p in Inodes(t) && p != [] && Parent(p) in v' ensures p in v' + q' {
      if Parent(p) == n {
        KidListed(t, n, ns, p);
      }
    }
  }

  lemma KidListed(t: Tree, n: Path, ns: seq<Name>, p: Path)
    requires Shape(t) && p in Inodes(t) && p != [] && Parent(p) == n
    requires if RealDir(t, n) then IsSortOf(Lt, ChildNames(t, n), ns) else ns == []
    ensures p in KidPaths(t, n, ns)
  {
    KidPathsIn(t, n, ns);
    assert RealDir(t, Parent(p));
    assert p == n + [Base(p)];
    ChildName(t, n, Base(p));
    assert Base(p) in Elements(ns);
    var i :| 0 <= i < |ns| && ns[i] == Base(p);
  }

  lemma {:induction false} AllVisited(t: Tree, v: seq<Path>, p: Path)
    requires Shape(t) && WalkInv(t, v, []) && p in Inodes(t)
    ensures p in v
    decreases |p|
  {
    assert v + [] == v;
    if p != [] {
      assert RealDir(t, Parent(p));
      AllVisited(t, v, Parent(p));
    }
  }

  /** When the queue runs dry, the visited nodes are exactly the walk order. */
  lemma WalkEnds(t: Tree, v: seq<Path>)
    requires Shape(t) && WalkInv(t, v, [])
    ensures v == WalkOrder(t)
  {
    BeforeIsOrder();
    assert v + [] == v;
    forall p ensures p in Elements(v) <==> p in Inodes(t) {
      if p in Inodes(t) {
        AllVisited(t, v, p);
      }
    }
    assert Elements(v) == Inodes(t);
    SortUnique(Before, v, WalkOrder(t));
  }

  /** There are never more visited nodes than inodes. */
  lemma WalkBound(t: Tree, v: seq<Path>, q: seq<Path>)
    requires WalkInv(t, v, q)
    ensures |v| + |q| <= |Inodes(t)|
  {
    BeforeIsOrder();
    SortedCard(Before, v + q);
    Subset(Elements(v + q), Inodes(t));
  }

  lemma Subset<T>(a: set<T>, b: set<T>)
    requires a <= b
    ensures |a| <= |b|
  {
    if a != {} {
      var x :| x in a;
      Subset(a - {x}, b - {x});
    }
  }
}
