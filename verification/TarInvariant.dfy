/**
 What the node graph must be, read off the entry list alone, and the proof that
 every addEntry keeps it.
 */
module TarInvariant {
  import opened Wrappers
  import opened Bytes
  import opened TarTree

  // ---------------------------------------------------------------- the stream

  predicate Prefix(p: Path, q: Path) {
    |p| <= |q| && q[..|p|] == p
  }

  predicate StrictPrefix(p: Path, q: Path) {
    |p| < |q| && Prefix(p, q)
  }

  predicate PlainComponent(c: Name) {
    c != [] && c != DOT && c != DOTDOT && 0 !in c && SLASH !in c
  }

  predicate PlainPath(p: Path) {
    forall i :: 0 <= i < |p| ==> PlainComponent(p[i])
  }

  predicate DoubledSlash(s: Name) {
    |s| >= 2 && s[0] == SLASH && s[1] == SLASH
  }

  /** t is the root, a parent of a listed path, or a listed directory. */
  predicate IsDirectoryPath(es: seq<Entry>, t: Path) {
    || t == []
    || exists i :: 0 <= i < |es| && (StrictPrefix(t, PathOf(es[i])) || (PathOf(es[i]) == t && es[i].kind == Dir))
  }

  predicate Listed(es: seq<Entry>, p: Path) {
    exists i :: 0 <= i < |es| && PathOf(es[i]) == p
  }

  /** What a flattened stream guarantees about its next entry. */
  predicate EntryWellFormed(es: seq<Entry>, e: Entry) {
    && !DoubledSlash(e.name) && PlainPath(PathOf(e))
    && !Listed(es, PathOf(e))
    && (e.kind != Dir ==> PathOf(e) != [])
    && (e.kind == Hardlink ==>
          var t := Clean(e.linkname);
          !DoubledSlash(e.linkname) && PlainPath(t) && t != PathOf(e) && !IsDirectoryPath(es + [e], t))
  }

  predicate WellFormed(es: seq<Entry>) {
    forall i :: 0 <= i < |es| ==> EntryWellFormed(es[..i], es[i])
  }

  // ---------------------------------------------------------------- reference tree

  /** The entry listing path p, if there is one. */
  function IndexOf(es: seq<Entry>, p: Path): (r: Option<nat>)
    ensures r.Some? ==> r.value < |es| && PathOf(es[r.value]) == p
    ensures r.None? ==> !Listed(es, p)
  {
    if es == [] then None
    else if PathOf(es[|es| - 1]) == p then Some(|es| - 1)
    else
      var r := IndexOf(es[..|es| - 1], p);
      assert r.None? ==> forall i :: 0 <= i < |es| - 1 ==> es[..|es| - 1][i] == es[i];
      r
  }

  /** A path exists when it is the root or lies on the way to a listed path. */
  ghost predicate Exists(es: seq<Entry>, p: Path) {
    p == [] || exists i :: 0 <= i < |es| && Prefix(p, PathOf(es[i]))
  }

  /** The path whose inode p names: hardlinks lead to earlier entries. */
  function Origin(es: seq<Entry>, p: Path): Path
    decreases |es|
  {
    match IndexOf(es, p)
    case None => p
    case Some(i) => if es[i].kind == Hardlink then Origin(es[..i], Clean(es[i].linkname)) else p
  }

  function DeclaredRdev(e: Entry): nat {
    if e.kind == CharDev || e.kind == BlockDev then MkDev(e.major, e.minor) else 0
  }

  /** The node at p carries what the stream declares for p (link counts and placement aside). */
  ghost predicate NodeOk(es: seq<Entry>, p: Path, n: Node) {
    match IndexOf(es, p)
    case None => n == NewDir().(nlink := n.nlink)
    case Some(i) =>
      var e := es[i];
      && n.nid == 0 && n.ino == 0
      && if e.kind == Hardlink then
           n.hardTo == Some(Origin(es, p)) && n.size == 0 && n.ftype == FT_DIR
         else
           && n.hardTo == None
           && n.ftype == FileType(e.kind) && n.mode == e.mode % 4096 + FormatBits(e.kind)
           && n.uid == Uint32(e.uid) && n.gid == Uint32(e.gid) && n.mtime == e.mtime
           && n.rdev == DeclaredRdev(e)
           && n.size == |Content(e)| && (n.size == 0 ==> n.blkaddr == 0)
  }

  ghost predicate NodesOk(es: seq<Entry>, t: Tree) {
    && (forall i :: 0 <= i < |es| ==> PathOf(es[i]) in t)
    && (forall p :: p in t ==> NodeOk(es, p, t[p]))
  }

  /** Parents are real directories; alias chains end after one step; names are short enough. */
  ghost predicate Shape(t: Tree) {
    && RealDir(t, []) && AliasesEnd(t)
    && (forall p {:trigger Parent(p)} {:trigger Base(p)} :: p in t && p != [] ==>
          RealDir(t, Parent(p)) && |Base(p)| <= 255 && PlainComponent(Base(p)))
  }

  // ---------------------------------------------------------------- link counts

  ghost function SubDirs(t: Tree, p: Path): set<Path> {
    set q | q in t && IsChild(p, q) && RealDir(t, q)
  }

  ghost function NamesOf(t: Tree, p: Path): set<Path> {
    set q | q in t && Canonical(t, q) == p
  }

  ghost function LinkCount(t: Tree, p: Path): nat
    requires p in t
  {
    if t[p].ftype == FT_DIR then 2 + |SubDirs(t, p)| else |NamesOf(t, p)|
  }

  /** A directory counts "." , its name and its subdirectories; anything else counts its names. */
  ghost predicate LinksOk(t: Tree) {
    forall p :: p in t ==> LinkOk(t, p)
  }

  ghost predicate LinkOk(t: Tree, p: Path)
    requires p in t
  {
    t[p].hardTo == None ==> t[p].nlink == Uint32(LinkCount(t, p))
  }

  // ---------------------------------------------------------------- data placement

  /** The whole output is addressable by 32-bit block numbers. */
  predicate Addressable(out: seq<byte>) {
    |out| <= 4096 * 0x1_0000_0000
  }

  function Blocks(size: nat): nat {
    (size + 4095) / 4096
  }

  ghost predicate Holds(out: seq<byte>, blkaddr: nat, data: seq<byte>) {
    && 1 <= blkaddr && 4096 * blkaddr + |data| <= |out|
    && out[4096 * blkaddr..4096 * blkaddr + |data|] == data
  }

  ghost function Declared(es: seq<Entry>, p: Path): seq<byte> {
    match IndexOf(es, p)
    case None => []
    case Some(i) => Content(es[i])
  }

  ghost predicate DataOk(es: seq<Entry>, t: Tree, out: seq<byte>) {
    forall p :: p in t && t[p].size > 0 && Addressable(out) ==> Holds(out, t[p].blkaddr, Declared(es, p))
  }

  ghost predicate Apart(m: Node, n: Node) {
    m.blkaddr + Blocks(m.size) <= n.blkaddr || n.blkaddr + Blocks(n.size) <= m.blkaddr
  }

  /** Extents of different nodes never overlap. */
  ghost predicate Disjoint(t: Tree) {
    forall p, q :: p in t && q in t && p != q && t[p].size > 0 && t[q].size > 0 ==> Apart(t[p], t[q])
  }

  ghost predicate Sized(out: seq<byte>) {
    |out| % 4096 == 0 && |out| >= 4096
  }

  ghost predicate Inv(es: seq<Entry>, st: State) {
    && Shape(st.tree) && LinksOk(st.tree) && NodesOk(es, st.tree)
    && Sized(st.out) && DataOk(es, st.tree, st.out)
    && (Addressable(st.out) ==> Disjoint(st.tree))
  }

  // ---------------------------------------------------------------- counting lemmas

  /** Turning directory p into something else removes exactly p from its parent's subdirectories. */
  lemma SubDirsWithout(t: Tree, t': Tree, p: Path, x: Path)
    requires t.Keys == t'.Keys && p in t && p != []
    requires RealDir(t, p) && !RealDir(t', p)
    requires forall q :: q in t && q != p ==> RealDir(t, q) == RealDir(t', q)
    ensures |SubDirs(t', x)| == |SubDirs(t, x)| - (if x == Parent(p) then 1 else 0)
  {
    if x == Parent(p) {
      assert SubDirs(t, x) == SubDirs(t', x) + {p};
    } else {
      assert SubDirs(t, x) == SubDirs(t', x);
    }
  }

  lemma SubDirsWith(t: Tree, t': Tree, p: Path, x: Path)
    requires t'.Keys == t.Keys + {p} && p !in t && p != [] && RealDir(t', p)
    requires forall q :: q in t ==> RealDir(t, q) == RealDir(t', q)
    ensures |SubDirs(t', x)| == |SubDirs(t, x)| + (if x == Parent(p) then 1 else 0)
  {
    forall q ensures q in SubDirs(t', x) <==> q in SubDirs(t, x) || (q == p && x == Parent(p)) {
    }
    if x == Parent(p) {
      assert SubDirs(t', x) == SubDirs(t, x) + {p};
    } else {
      assert SubDirs(t', x) == SubDirs(t, x);
    }
  }

  lemma SubDirsSame(t: Tree, t': Tree, x: Path)
    requires t.Keys == t'.Keys && forall q :: q in t ==> RealDir(t, q) == RealDir(t', q)
    ensures SubDirs(t', x) == SubDirs(t, x)
  {
  }

  lemma NamesSame(t: Tree, t': Tree, x: Path)
    requires t.Keys == t'.Keys && forall q :: q in t ==> Canonical(t, q) == Canonical(t', q)
    ensures NamesOf(t', x) == NamesOf(t, x)
  {
  }

  lemma ModInc(c: nat)
    ensures Inc(Uint32(c)) == Uint32(c + 1)
  {
  }

  lemma ModDec(c: nat)
    ensures Dec(Uint32(c)) == Uint32(c - 1)
  {
  }

  // ---------------------------------------------------------------- new directories

  lemma NoDescendants(t: Tree, p: Path)
    requires Shape(t) && p !in t
    ensures SubDirs(t, p) == {} && forall q :: q in t ==> !IsChild(p, q)
  {
  }

  lemma AddDirSubDirs(t: Tree, p: Path, x: Path)
    requires Shape(t) && p !in t && p != [] && RealDir(t, Parent(p)) && x in t
    ensures |SubDirs(AddDir(t, p), x)| == |SubDirs(t, x)| + (if x == Parent(p) then 1 else 0)
  {
    SubDirsWith(t, AddDir(t, p), p, x);
  }

  lemma AddDirNames(t: Tree, p: Path, x: Path)
    requires Shape(t) && p !in t && p != [] && RealDir(t, Parent(p)) && x in t
    ensures NamesOf(AddDir(t, p), x) == NamesOf(t, x)
  {
  }

  lemma AddDirLink(t: Tree, p: Path, x: Path)
    requires Shape(t) && p !in t && p != [] && RealDir(t, Parent(p))
    requires x in t && LinkOk(t, x)
    ensures LinkOk(AddDir(t, p), x)
  {
    ModInc(2 + |SubDirs(t, x)|);
    AddDirSubDirs(t, p, x);
    AddDirNames(t, p, x);
  }

  lemma NewDirLink(t: Tree, p: Path)
    requires Shape(t) && p !in t && p != [] && RealDir(t, Parent(p))
    ensures LinkOk(AddDir(t, p), p)
  {
    NoDescendants(t, p);
    var t' := AddDir(t, p);
    assert !IsChild(p, p);
    assert SubDirs(t', p) == {};
  }

  lemma AddDirLinks(t: Tree, p: Path)
    requires Shape(t) && LinksOk(t) && p !in t && p != [] && RealDir(t, Parent(p))
    ensures LinksOk(AddDir(t, p))
  {
    forall x | x in AddDir(t, p) ensures LinkOk(AddDir(t, p), x) {
      if x == p {
        NewDirLink(t, p);
      } else {
        AddDirLink(t, p, x);
      }
    }
  }

  lemma AddDirAliases(t: Tree, p: Path)
    requires AliasesEnd(t) && p !in t && p != [] && RealDir(t, Parent(p))
    ensures AliasesEnd(AddDir(t, p))
  {
    var t' := AddDir(t, p);
    forall q | q in t' && t'[q].hardTo.Some?
      ensures t'[q].hardTo.value in t' && t'[t'[q].hardTo.value].hardTo.None?
      ensures t'[t'[q].hardTo.value].ftype != FT_DIR
    {
      assert q in t && t[q].hardTo == t'[q].hardTo;
    }
  }

  lemma AddDirShape(t: Tree, p: Path)
    requires Shape(t) && p !in t && p != [] && RealDir(t, Parent(p))
    requires |Base(p)| <= 255 && PlainComponent(Base(p))
    ensures Shape(AddDir(t, p))
  {
    AddDirAliases(t, p);
    var t' := AddDir(t, p);
    forall q | q in t' && q != []
      ensures RealDir(t', Parent(q)) && |Base(q)| <= 255 && PlainComponent(Base(q))
    {
      assert q != p ==> RealDir(t, Parent(q));
    }
  }

  lemma ListedIn(es: seq<Entry>, t: Tree, p: Path)
    requires NodesOk(es, t)
    ensures IndexOf(es, p).Some? ==> p in t
  {
    var i := IndexOf(es, p);
    assert i.Some? ==> PathOf(es[i.value]) in t;
  }

  lemma AddDirNodes(es: seq<Entry>, t: Tree, p: Path)
    requires NodesOk(es, t) && p !in t && p != [] && Parent(p) in t
    ensures NodesOk(es, AddDir(t, p)) && IndexOf(es, p) == None
  {
    ListedIn(es, t, p);
    forall q | q in AddDir(t, p) ensures NodeOk(es, q, AddDir(t, p)[q]) {
      assert q != p ==> NodeOk(es, q, t[q]);
    }
  }

  lemma AddDirKeeps(es: seq<Entry>, st: State, p: Path)
    requires Inv(es, st) && p !in st.tree && p != [] && RealDir(st.tree, Parent(p))
    requires |Base(p)| <= 255 && PlainComponent(Base(p))
    ensures Inv(es, State(AddDir(st.tree, p), st.out))
  {
    AddDirShape(st.tree, p);
    AddDirLinks(st.tree, p);
    AddDirNodes(es, st.tree, p);
    SameData(es, es, st.tree, AddDir(st.tree, p), st.out);
  }

  /** Data placement depends only on the sizes and addresses of the non-empty nodes. */
  lemma SameData(es: seq<Entry>, es': seq<Entry>, t: Tree, t': Tree, out: seq<byte>)
    requires DataOk(es, t, out) && (Addressable(out) ==> Disjoint(t))
    requires forall p :: p in t' && t'[p].size > 0 ==>
               p in t && t[p].size == t'[p].size && t[p].blkaddr == t'[p].blkaddr && Declared(es, p) == Declared(es', p)
    ensures DataOk(es', t', out) && (Addressable(out) ==> Disjoint(t'))
  {
    if Addressable(out) {
      forall p, q | p in t' && q in t' && p != q && t'[p].size > 0 && t'[q].size > 0 ensures Apart(t'[p], t'[q]) {
        assert Apart(t[p], t[q]);
      }
    }
  }

  lemma PrefixSplit(q: Path, p: Path)
    requires p != []
    ensures Prefix(q, p) <==> Prefix(q, Parent(p)) || q == p
  {
    if |q| < |p| {
      assert p[..|q|] == Parent(p)[..|q|];
    }
  }

  lemma {:induction false} PrefixesIn(t: Tree, p: Path, q: Path)
    requires Shape(t) && p in t && Prefix(q, p)
    ensures q in t
    decreases |p|
  {
    if p != q {
      PrefixSplit(q, p);
      assert RealDir(t, Parent(p));
      PrefixesIn(t, Parent(p), q);
    }
  }

  /** lookup keeps the invariant and adds exactly the missing prefixes of p. */
  lemma {:induction false} CreateKeeps(es: seq<Entry>, st: State, p: Path)
    requires Inv(es, st) && PlainPath(p) && Create(st.tree, p).Ok?
    ensures Inv(es, State(Create(st.tree, p).value, st.out))
    ensures p in Create(st.tree, p).value
    decreases |p|
  {
    if p != [] && p !in st.tree {
      CreateKeeps(es, st, Parent(p));
      var t1 := Create(st.tree, Parent(p)).value;
      CreateKeys(es, st, Parent(p), p);
      assert PlainComponent(p[|p| - 1]);
      AddDirKeeps(es, State(t1, st.out), p);
    }
  }

  lemma {:induction false} CreateKeys(es: seq<Entry>, st: State, p: Path, q: Path)
    requires Inv(es, st) && PlainPath(p) && Create(st.tree, p).Ok?
    ensures q in Create(st.tree, p).value <==> q in st.tree || Prefix(q, p)
    decreases |p|
  {
    if p == [] || p in st.tree {
      if Prefix(q, p) {
        PrefixesIn(st.tree, p, q);
      }
    } else {
      CreateKeys(es, st, Parent(p), q);
      PrefixSplit(q, p);
    }
  }

  // ---------------------------------------------------------------- one more entry

  lemma IndexStep(es: seq<Entry>, e: Entry, q: Path)
    ensures IndexOf(es + [e], q) == if q == PathOf(e) then Some(|es|) else IndexOf(es, q)
  {
    assert (es + [e])[..|es|] == es;
  }

  lemma OriginStep(es: seq<Entry>, e: Entry, q: Path)
    ensures q != PathOf(e) ==> Origin(es + [e], q) == Origin(es, q)
    ensures q == PathOf(e) ==>
              Origin(es + [e], q) == if e.kind == Hardlink then Origin(es, Clean(e.linkname)) else q
  {
    IndexStep(es, e, q);
    assert (es + [e])[..|es|] == es;
    var i := IndexOf(es, q);
    assert i.Some? ==> (es + [e])[..i.value] == es[..i.value];
  }

  /** Every node other than the new entry's still carries what the stream declares for it. */
  lemma NodesStep(es: seq<Entry>, e: Entry, t: Tree, t': Tree)
    requires NodesOk(es, t) && t'.Keys == t.Keys && PathOf(e) in t
    requires forall q :: q in t && q != PathOf(e) ==> t'[q].(nlink := 0) == t[q].(nlink := 0)
    requires NodeOk(es + [e], PathOf(e), t'[PathOf(e)])
    ensures NodesOk(es + [e], t')
  {
    forall q | q in t' ensures NodeOk(es + [e], q, t'[q]) {
      IndexStep(es, e, q);
      OriginStep(es, e, q);
      if q != PathOf(e) {
        assert NodeOk(es, q, t[q]);
        NodeOkNlink(es, q, t[q], t'[q]);
      }
    }
  }

  lemma NodeOkNlink(es: seq<Entry>, q: Path, n: Node, n': Node)
    requires NodeOk(es, q, n) && n'.(nlink := 0) == n.(nlink := 0)
    ensures NodeOk(es, q, n')
  {
    assert n' == n.(nlink := n'.nlink);
  }

  /** Only p changed its kind; everybody else changed at most a link count. */
  ghost predicate Retyped(t: Tree, t': Tree, p: Path) {
    && t'.Keys == t.Keys && RealDir(t, p) && !HasChild(t, p) && p != []
    && (forall q :: q in t && q != p ==> t'[q].(nlink := 0) == t[q].(nlink := 0))
    && (t'[p].hardTo == None ==> t'[p].ftype != FT_DIR)
    && (t'[p].hardTo.Some? ==>
          var c := t'[p].hardTo.value;
          c in t && c != p && t[c].hardTo == None && t[c].ftype != FT_DIR)
  }

  lemma RetypedSame(t: Tree, t': Tree, p: Path, q: Path)
    requires Retyped(t, t', p) && q in t && q != p
    ensures t'[q].hardTo == t[q].hardTo && t'[q].ftype == t[q].ftype
    ensures RealDir(t', q) == RealDir(t, q) && Canonical(t', q) == Canonical(t, q)
  {
    assert t'[q].(nlink := 0).hardTo == t[q].(nlink := 0).hardTo;
    assert t'[q].(nlink := 0).ftype == t[q].(nlink := 0).ftype;
  }

  lemma RetypedShape(t: Tree, t': Tree, p: Path)
    requires Shape(t) && Retyped(t, t', p)
    ensures Shape(t')
  {
    RetypedAliases(t, t', p);
    forall q | q in t' && q != []
      ensures RealDir(t', Parent(q)) && |Base(q)| <= 255 && PlainComponent(Base(q))
    {
      assert RealDir(t, Parent(q));
      assert IsChild(Parent(q), q);
      RetypedSame(t, t', p, Parent(q));
    }
  }

  lemma RetypedAliases(t: Tree, t': Tree, p: Path)
    requires AliasesEnd(t) && Retyped(t, t', p)
    ensures AliasesEnd(t')
  {
    forall q | q in t' && t'[q].hardTo.Some?
      ensures t'[q].hardTo.value in t' && t'[t'[q].hardTo.value].hardTo.None?
      ensures t'[t'[q].hardTo.value].ftype != FT_DIR
    {
      if q != p {
        RetypedSame(t, t', p, q);
      }
      RetypedSame(t, t', p, t'[q].hardTo.value);
    }
  }

  lemma RetypedSubDirs(t: Tree, t': Tree, p: Path, x: Path)
    requires Retyped(t, t', p)
    ensures |SubDirs(t', x)| == |SubDirs(t, x)| - (if x == Parent(p) then 1 else 0)
  {
    forall q | q in t && q != p ensures RealDir(t, q) == RealDir(t', q) {
      RetypedSame(t, t', p, q);
    }
    SubDirsWithout(t, t', p, x);
  }

  lemma RetypedNamesAre(t: Tree, t': Tree, p: Path, x: Path)
    requires AliasesEnd(t) && Retyped(t, t', p) && x in t && x != p && !RealDir(t, x)
    ensures NamesOf(t', x) == if t'[p].hardTo == Some(x) then NamesOf(t, x) + {p} else NamesOf(t, x)
    ensures p !in NamesOf(t, x)
  {
    forall q | q in t && q != p ensures Canonical(t, q) == Canonical(t', q) {
      RetypedSame(t, t', p, q);
    }
  }

  /** Only the inode a new alias points at gains a name. */
  lemma RetypedNames(t: Tree, t': Tree, p: Path, x: Path)
    requires AliasesEnd(t) && Retyped(t, t', p) && x in t && x != p && !RealDir(t, x)
    ensures |NamesOf(t', x)| == |NamesOf(t, x)| + (if t'[p].hardTo == Some(x) then 1 else 0)
  {
    RetypedNamesAre(t, t', p, x);
  }

  /** A node that just stopped being a directory has exactly one name. */
  lemma RetypedSelf(t: Tree, t': Tree, p: Path)
    requires AliasesEnd(t) && Retyped(t, t', p) && t'[p].hardTo == None
    ensures NamesOf(t', p) == {p}
  {
    forall q | q in t' ensures Canonical(t', q) == p <==> q == p {
      if q != p {
        RetypedSame(t, t', p, q);
      }
    }
  }

  lemma RetypedLink(t: Tree, t': Tree, p: Path, x: Path)
    requires Shape(t) && Retyped(t, t', p) && x in t && LinkOk(t, x)
    requires x == p ==> t'[p].nlink == 1
    requires x != p && x == Parent(p) ==> t'[x].nlink == Dec(t[x].nlink)
    requires x != p && t'[p].hardTo == Some(x) ==> t'[x].nlink == Inc(t[x].nlink)
    requires x != p && x != Parent(p) && t'[p].hardTo != Some(x) ==> t'[x].nlink == t[x].nlink
    ensures LinkOk(t', x)
  {
    assert RealDir(t, Parent(p));
    if x == p {
      if t'[p].hardTo == None {
        RetypedSelf(t, t', p);
      }
    } else {
      RetypedSame(t, t', p, x);
      if t[x].hardTo == None {
        if t[x].ftype == FT_DIR {
          RetypedSubDirs(t, t', p, x);
          ModDec(2 + |SubDirs(t, x)|);
        } else {
          RetypedNames(t, t', p, x);
          ModInc(|NamesOf(t, x)|);
        }
      }
    }
  }

  ghost predicate LinkChanges(t: Tree, t': Tree, p: Path)
    requires t.Keys == t'.Keys && p in t && p != [] && Parent(p) in t
  {
    && t'[p].nlink == 1
    && t'[Parent(p)].nlink == Dec(t[Parent(p)].nlink)
    && (forall x :: x in t && x != p && x != Parent(p) ==>
          t'[x].nlink == if t'[p].hardTo == Some(x) then Inc(t[x].nlink) else t[x].nlink)
  }

  lemma RetypedLinks(t: Tree, t': Tree, p: Path)
    requires Shape(t) && LinksOk(t) && Retyped(t, t', p) && Parent(p) in t && LinkChanges(t, t', p)
    ensures LinksOk(t')
  {
    assert RealDir(t, Parent(p));
    forall x | x in t' ensures LinkOk(t', x) {
      assert LinkOk(t, x);
      RetypedLink(t, t', p, x);
    }
  }

  // ---------------------------------------------------------------- data

  lemma HoldsLonger(out: seq<byte>, out': seq<byte>, blkaddr: nat, data: seq<byte>)
    requires out <= out' && Holds(out, blkaddr, data)
    ensures Holds(out', blkaddr, data)
  {
    assert out == out'[..|out|];
  }

  /** Where streamData puts content, and that nothing written before moves. */
  lemma StreamPlaces(out: seq<byte>, data: seq<byte>)
    requires Sized(out) && data != [] && Addressable(PadTo(out + data))
    ensures Holds(PadTo(out + data), NextBlk(out), data) && NextBlk(out) == |out| / 4096
    ensures Sized(PadTo(out + data)) && out <= PadTo(out + data)
  {
    var out' := PadTo(out + data);
    assert out + data <= out';
    assert out'[|out|..|out| + |data|] == (out + data)[|out|..|out| + |data|] == data;
  }

  ghost predicate Placed(out: seq<byte>, out': seq<byte>, n: Node, data: seq<byte>) {
    && out <= out' && Sized(out')
    && (n.size > 0 && Addressable(out') ==>
          n.size == |data| && n.blkaddr == |out| / 4096 && Holds(out', n.blkaddr, data))
  }

  lemma DataStep(es: seq<Entry>, e: Entry, st: State, t': Tree, out': seq<byte>)
    requires Inv(es, st) && PathOf(e) in st.tree && t'.Keys == st.tree.Keys
    requires forall q :: q in st.tree && q != PathOf(e) ==> t'[q].(nlink := 0) == st.tree[q].(nlink := 0)
    requires Placed(st.out, out', t'[PathOf(e)], Content(e))
    ensures DataOk(es + [e], t', out')
    ensures Addressable(out') ==> Disjoint(t')
  {
    if Addressable(out') {
      forall q | q in t' && t'[q].size > 0 ensures Holds(out', t'[q].blkaddr, Declared(es + [e], q)) {
        DataStepAt(es, e, st, t', out', q);
      }
      forall p, q | p in t' && q in t' && p != q && t'[p].size > 0 && t'[q].size > 0
        ensures Apart(t'[p], t'[q])
      {
        DataStepApart(es, e, st, t', out', p, q);
      }
    }
  }

  lemma DataStepApart(es: seq<Entry>, e: Entry, st: State, t': Tree, out': seq<byte>, p: Path, q: Path)
    requires Inv(es, st) && PathOf(e) in st.tree && t'.Keys == st.tree.Keys
    requires forall q :: q in st.tree && q != PathOf(e) ==> t'[q].(nlink := 0) == st.tree[q].(nlink := 0)
    requires Placed(st.out, out', t'[PathOf(e)], Content(e)) && Addressable(out')
    requires p in t' && q in t' && p != q && t'[p].size > 0 && t'[q].size > 0
    ensures Apart(t'[p], t'[q])
  {
    DataStepAt(es, e, st, t', out', p);
    DataStepAt(es, e, st, t', out', q);
    if p != PathOf(e) && q != PathOf(e) {
      EarlierApart(es, st, p, q);
      SamePlaces(st.tree[p], st.tree[q], t'[p], t'[q]);
    }
  }

  lemma EarlierApart(es: seq<Entry>, st: State, p: Path, q: Path)
    requires Inv(es, st) && Addressable(st.out) && p in st.tree && q in st.tree && p != q
    requires st.tree[p].size > 0 && st.tree[q].size > 0
    ensures Apart(st.tree[p], st.tree[q])
  {
  }

  lemma SamePlaces(m: Node, n: Node, m': Node, n': Node)
    requires Apart(m, n) && m'.blkaddr == m.blkaddr && m'.size == m.size && n'.blkaddr == n.blkaddr && n'.size == n.size
    ensures Apart(m', n')
  {
  }

  lemma DataStepAt(es: seq<Entry>, e: Entry, st: State, t': Tree, out': seq<byte>, q: Path)
    requires Inv(es, st) && PathOf(e) in st.tree && t'.Keys == st.tree.Keys
    requires forall q :: q in st.tree && q != PathOf(e) ==> t'[q].(nlink := 0) == st.tree[q].(nlink := 0)
    requires Placed(st.out, out', t'[PathOf(e)], Content(e)) && Addressable(out')
    requires q in t' && t'[q].size > 0
    ensures Holds(out', t'[q].blkaddr, Declared(es + [e], q))
    ensures q != PathOf(e) ==> t'[q].blkaddr + Blocks(t'[q].size) <= |st.out| / 4096
    ensures q != PathOf(e) ==> t'[q].blkaddr == st.tree[q].blkaddr && t'[q].size == st.tree[q].size
  {
    IndexStep(es, e, q);
    if q != PathOf(e) {
      assert t'[q].(nlink := 0).size == st.tree[q].(nlink := 0).size;
      assert t'[q].(nlink := 0).blkaddr == st.tree[q].(nlink := 0).blkaddr;
      assert NodeOk(es, q, st.tree[q]);
      assert |Declared(es, q)| == t'[q].size;
      HoldsLonger(st.out, out', t'[q].blkaddr, Declared(es, q));
    }
  }

  // ---------------------------------------------------------------- the kinds of entries

  lemma FreshNode(es: seq<Entry>, t: Tree, p: Path)
    requires NodesOk(es, t) && p in t && !Listed(es, p)
    ensures t[p] == NewDir().(nlink := t[p].nlink) && RealDir(t, p)
  {
    assert NodeOk(es, p, t[p]);
  }

  lemma FillDirLinks(t: Tree, p: Path, n: Node)
    requires LinksOk(t) && RealDir(t, p) && n.hardTo == None && n.ftype == FT_DIR && n.nlink == t[p].nlink
    ensures LinksOk(t[p := n])
  {
    var t' := t[p := n];
    forall x | x in t' ensures LinkOk(t', x) {
      assert LinkOk(t, x);
      SubDirsSame(t, t', x);
      NamesSame(t, t', x);
    }
  }

  lemma FillDirShape(t: Tree, p: Path, n: Node)
    requires Shape(t) && RealDir(t, p) && n.hardTo == None && n.ftype == FT_DIR
    ensures Shape(t[p := n])
  {
    var t' := t[p := n];
    forall q | q in t' && q != [] ensures RealDir(t', Parent(q)) {
      assert RealDir(t, Parent(q));
    }
  }

  lemma FillDirKeeps(es: seq<Entry>, e: Entry, st: State)
    requires Inv(es, st) && PathOf(e) in st.tree && !Listed(es, PathOf(e)) && e.kind == Dir
    ensures Inv(es + [e], Fill(st, e).value)
  {
    var t, p := st.tree, PathOf(e);
    var n := Describe(t[p], e);
    FreshNode(es, t, p);
    FillDirShape(t, p, n);
    FillDirLinks(t, p, n);
    FillDirNode(es, e, n, t[p].nlink);
    NodesStep(es, e, t, t[p := n]);
    DataStep(es, e, st, t[p := n], st.out);
  }

  lemma FillDirNode(es: seq<Entry>, e: Entry, n: Node, nlink: nat)
    requires e.kind == Dir && n == Describe(NewDir().(nlink := nlink), e)
    ensures NodeOk(es + [e], PathOf(e), n)
  {
    IndexStep(es, e, PathOf(e));
  }

  /** The node and its parent after the node stopped being a directory. */
  lemma RetypeDescribes(es: seq<Entry>, e: Entry, t: Tree)
    requires Shape(t) && NodesOk(es, t) && PathOf(e) in t && !Listed(es, PathOf(e)) && e.kind != Dir && PathOf(e) != []
    ensures Parent(PathOf(e)) in t && Parent(PathOf(e)) != PathOf(e)
    ensures var t1 := Retype(t, PathOf(e));
            && t1.Keys == t.Keys
            && t1[PathOf(e)] == NewDir().(nlink := 1)
            && t1[Parent(PathOf(e))] == t[Parent(PathOf(e))].(nlink := Dec(t[Parent(PathOf(e))].nlink))
            && forall q :: q in t && q != PathOf(e) && q != Parent(PathOf(e)) ==> t1[q] == t[q]
  {
    var p := PathOf(e);
    assert RealDir(t, Parent(p));
    assert |Parent(p)| < |p|;
    FreshNode(es, t, p);
  }

  lemma FillKeeps(es: seq<Entry>, e: Entry, st: State, st': State)
    requires Inv(es, st) && PathOf(e) in st.tree && PathOf(e) != [] && Parent(PathOf(e)) in st.tree
    requires Retyped(st.tree, st'.tree, PathOf(e)) && LinkChanges(st.tree, st'.tree, PathOf(e))
    requires NodeOk(es + [e], PathOf(e), st'.tree[PathOf(e)])
    requires Placed(st.out, st'.out, st'.tree[PathOf(e)], Content(e))
    ensures Inv(es + [e], st')
  {
    RetypedShape(st.tree, st'.tree, PathOf(e));
    RetypedLinks(st.tree, st'.tree, PathOf(e));
    NodesStep(es, e, st.tree, st'.tree);
    DataStep(es, e, st, st'.tree, st'.out);
  }

  lemma RetypeKeeps(es: seq<Entry>, e: Entry, t: Tree, n: Node)
    requires Shape(t) && NodesOk(es, t) && PathOf(e) in t && !Listed(es, PathOf(e)) && e.kind != Dir && PathOf(e) != []
    requires !HasChild(t, PathOf(e)) && n.hardTo == None && n.ftype != FT_DIR && n.nlink == 1
    ensures Parent(PathOf(e)) in t
    ensures var t' := Retype(t, PathOf(e))[PathOf(e) := n];
            Retyped(t, t', PathOf(e)) && LinkChanges(t, t', PathOf(e))
  {
    RetypeDescribes(es, e, t);
    FreshNode(es, t, PathOf(e));
  }

  /** The node of a freshly filled non-directory, non-hardlink entry. */
  function PlainNode(e: Entry, out: seq<byte>): Node {
    Describe(NewDir().(nlink := 1), e)
      .(size := |Content(e)|, blkaddr := if Content(e) == [] then 0 else NextBlk(out))
  }

  function OutAfter(e: Entry, out: seq<byte>): seq<byte> {
    if Content(e) == [] then out else PadTo(out + Content(e))
  }

  lemma DetachIs(es: seq<Entry>, e: Entry, t: Tree)
    requires Shape(t) && NodesOk(es, t) && PathOf(e) in t && !Listed(es, PathOf(e)) && e.kind != Dir && PathOf(e) != []
    ensures Parent(PathOf(e)) in t
    ensures Detach(t, e) == Retype(t, PathOf(e))[PathOf(e) := Describe(NewDir().(nlink := 1), e)]
    ensures Detach(t, e).Keys == t.Keys
  {
    RetypeDescribes(es, e, t);
  }

  lemma FinishPlain(st: State, e: Entry)
    requires e.kind != Dir && e.kind != Hardlink && PathOf(e) in st.tree
    requires st.tree[PathOf(e)] == Describe(NewDir().(nlink := 1), e) && Finish(st, e).Ok?
    ensures Finish(st, e).value == State(st.tree[PathOf(e) := PlainNode(e, st.out)], OutAfter(e, st.out))
  {
  }

  lemma FillPlainIs(es: seq<Entry>, e: Entry, st: State)
    requires Inv(es, st) && PathOf(e) in st.tree && PathOf(e) != [] && Parent(PathOf(e)) in st.tree
    requires !Listed(es, PathOf(e)) && e.kind != Dir && e.kind != Hardlink
    requires Fill(st, e).Ok?
    ensures Fill(st, e).value
            == State(Retype(st.tree, PathOf(e))[PathOf(e) := PlainNode(e, st.out)], OutAfter(e, st.out))
    ensures !HasChild(st.tree, PathOf(e))
  {
    DetachIs(es, e, st.tree);
    FinishPlain(State(Detach(st.tree, e), st.out), e);
  }

  lemma PlainNodeOk(es: seq<Entry>, e: Entry, out: seq<byte>)
    requires e.kind != Dir && e.kind != Hardlink
    ensures NodeOk(es + [e], PathOf(e), PlainNode(e, out))
  {
    IndexStep(es, e, PathOf(e));
  }

  lemma PlainPlaced(e: Entry, out: seq<byte>)
    requires Sized(out) && e.kind != Dir && e.kind != Hardlink
    ensures Placed(out, OutAfter(e, out), PlainNode(e, out), Content(e))
  {
    var data := Content(e);
    if data != [] {
      assert out + data <= PadTo(out + data);
      if Addressable(PadTo(out + data)) {
        StreamPlaces(out, data);
      }
    }
  }

  lemma FillPlainKeeps(es: seq<Entry>, e: Entry, st: State)
    requires Inv(es, st) && PathOf(e) in st.tree && PathOf(e) != [] && Parent(PathOf(e)) in st.tree
    requires !Listed(es, PathOf(e)) && e.kind != Dir && e.kind != Hardlink
    requires Fill(st, e).Ok?
    ensures Inv(es + [e], Fill(st, e).value)
  {
    var n := PlainNode(e, st.out);
    FillPlainIs(es, e, st);
    RetypeKeeps(es, e, st.tree, n);
    PlainNodeOk(es, e, st.out);
    PlainPlaced(e, st.out);
    FillKeeps(es, e, st, Fill(st, e).value);
  }

  function AliasNode(e: Entry, target: Path): Node {
    Describe(NewDir().(nlink := 1), e).(hardTo := Some(target))
  }

  lemma LinkIs(t: Tree, p: Path, target: Path, c: Path)
    requires p in t && target in t && target != p && Canonical(t, target) == c && c in t && c != p
    ensures Link(t, p, target) == Ok(t[p := t[p].(hardTo := Some(c))][c := t[c].(nlink := Inc(t[c].nlink))])
  {
  }

  /** t' is t with p turned into an alias of c. */
  ghost predicate Aliased(t: Tree, t': Tree, e: Entry, c: Path) {
    var p := PathOf(e);
    && p in t && p != [] && Parent(p) in t && c in t && c != p && !RealDir(t, c) && t[c].hardTo == None
    && t' == Retype(t, p)[p := AliasNode(e, c)][c := t[c].(nlink := Inc(t[c].nlink))]
  }

  lemma FillHardlinkFinds(es: seq<Entry>, e: Entry, st: State)
    requires Inv(es, st) && PathOf(e) in st.tree && PathOf(e) != []
    requires !Listed(es, PathOf(e)) && e.kind == Hardlink && Parent(PathOf(e)) in st.tree && Fill(st, e).Ok?
    ensures !HasChild(st.tree, PathOf(e)) && Clean(e.linkname) in st.tree
    ensures Link(Detach(st.tree, e), PathOf(e), Clean(e.linkname)).Ok?
    ensures Fill(st, e).value == State(Link(Detach(st.tree, e), PathOf(e), Clean(e.linkname)).value, st.out)
  {
    DetachIs(es, e, st.tree);
  }

  /** Detaching an entry's node leaves every other non-directory alone. */
  lemma DetachOther(es: seq<Entry>, e: Entry, t: Tree, c: Path)
    requires Shape(t) && NodesOk(es, t) && PathOf(e) in t && !Listed(es, PathOf(e)) && e.kind != Dir && PathOf(e) != []
    requires c in t && c != PathOf(e) && !RealDir(t, c) && Parent(PathOf(e)) in t
    ensures Detach(t, e)[c] == t[c]
  {
    RetypeDescribes(es, e, t);
    assert RealDir(t, Parent(PathOf(e)));
  }

  lemma AliasTarget(es: seq<Entry>, e: Entry, t: Tree) returns (c: Path)
    requires Shape(t) && NodesOk(es, t) && PathOf(e) in t && PathOf(e) != [] && Parent(PathOf(e)) in t
    requires EntryWellFormed(es, e) && e.kind == Hardlink && KeysWithin(es + [e], t) && Clean(e.linkname) in t
    ensures c == Origin(es, Clean(e.linkname)) && c in t && c != PathOf(e) && Clean(e.linkname) != PathOf(e)
    ensures !RealDir(t, c) && t[c].hardTo == None
    ensures Detach(t, e).Keys == t.Keys && Detach(t, e)[c] == t[c] && Canonical(Detach(t, e), Clean(e.linkname)) == c
  {
    var q := Clean(e.linkname);
    TargetOrigin(es, e, t);
    FreshNode(es, t, PathOf(e));
    c := Canonical(t, q);
    DetachIs(es, e, t);
    DetachOther(es, e, t, c);
    if q != c {
      DetachOther(es, e, t, q);
    }
  }

  lemma FillHardlinkIs(es: seq<Entry>, e: Entry, st: State)
    requires Inv(es, st) && PathOf(e) in st.tree && PathOf(e) != [] && Parent(PathOf(e)) in st.tree
    requires EntryWellFormed(es, e) && e.kind == Hardlink && KeysWithin(es + [e], st.tree)
    requires Fill(st, e).Ok?
    ensures !HasChild(st.tree, PathOf(e)) && Fill(st, e).value.out == st.out
    ensures Aliased(st.tree, Fill(st, e).value.tree, e, Origin(es, Clean(e.linkname)))
  {
    FillHardlinkFinds(es, e, st);
    var c := AliasTarget(es, e, st.tree);
    DetachedLink(es, e, st.tree, c);
  }

  lemma DetachedLink(es: seq<Entry>, e: Entry, t: Tree, c: Path)
    requires Shape(t) && NodesOk(es, t) && PathOf(e) in t && PathOf(e) != [] && Parent(PathOf(e)) in t
    requires !Listed(es, PathOf(e)) && e.kind == Hardlink && Clean(e.linkname) in t
    requires c in t && c != PathOf(e) && Clean(e.linkname) != PathOf(e) && !RealDir(t, c) && t[c].hardTo == None
    requires Detach(t, e).Keys == t.Keys && Detach(t, e)[c] == t[c] && Canonical(Detach(t, e), Clean(e.linkname)) == c
    ensures Link(Detach(t, e), PathOf(e), Clean(e.linkname)).Ok?
    ensures Aliased(t, Link(Detach(t, e), PathOf(e), Clean(e.linkname)).value, e, c)
  {
    DetachIs(es, e, t);
    LinkIs(Detach(t, e), PathOf(e), Clean(e.linkname), c);
    Overwrite(Retype(t, PathOf(e)), PathOf(e), Describe(NewDir().(nlink := 1), e), AliasNode(e, c));
  }

  lemma Overwrite(t: Tree, p: Path, m: Node, n: Node)
    ensures t[p := m][p := n] == t[p := n]
  {
  }

  lemma AliasedNodes(es: seq<Entry>, e: Entry, t: Tree, t': Tree, c: Path)
    requires Shape(t) && NodesOk(es, t) && PathOf(e) in t && !Listed(es, PathOf(e)) && e.kind == Hardlink
    requires PathOf(e) != [] && Aliased(t, t', e, c)
    ensures var p := PathOf(e);
            && t'.Keys == t.Keys && Parent(p) in t && Parent(p) != p && Parent(p) != c
            && t'[p] == AliasNode(e, c) && t'[c] == t[c].(nlink := Inc(t[c].nlink))
            && t'[Parent(p)] == t[Parent(p)].(nlink := Dec(t[Parent(p)].nlink))
            && forall q :: q in t && q != p && q != c && q != Parent(p) ==> t'[q] == t[q]
  {
    RetypeDescribes(es, e, t);
    assert RealDir(t, Parent(PathOf(e)));
  }

  lemma AliasedKeeps(es: seq<Entry>, e: Entry, t: Tree, t': Tree, c: Path)
    requires Shape(t) && NodesOk(es, t) && PathOf(e) in t && !Listed(es, PathOf(e)) && e.kind == Hardlink
    requires PathOf(e) != [] && !HasChild(t, PathOf(e)) && Aliased(t, t', e, c)
    ensures Retyped(t, t', PathOf(e)) && LinkChanges(t, t', PathOf(e)) && t'[PathOf(e)] == AliasNode(e, c)
  {
    var p := PathOf(e);
    AliasedNodes(es, e, t, t', c);
    FreshNode(es, t, p);
    forall q | q in t && q != p ensures t'[q].(nlink := 0) == t[q].(nlink := 0) {
      assert q == c || q == Parent(p) || t'[q] == t[q];
    }
    AliasedCounts(t, t', p, c);
  }

  lemma AliasedCounts(t: Tree, t': Tree, p: Path, c: Path)
    requires p in t && p != [] && c in t && t'.Keys == t.Keys && Parent(p) in t && Parent(p) != p && Parent(p) != c
    requires t'[p].hardTo == Some(c) && t'[p].nlink == 1 && t'[c] == t[c].(nlink := Inc(t[c].nlink))
    requires t'[Parent(p)] == t[Parent(p)].(nlink := Dec(t[Parent(p)].nlink))
    requires forall q :: q in t && q != p && q != c && q != Parent(p) ==> t'[q] == t[q]
    ensures LinkChanges(t, t', p)
  {
  }

  lemma FillHardlinkKeeps(es: seq<Entry>, e: Entry, st: State)
    requires Inv(es, st) && PathOf(e) in st.tree && PathOf(e) != [] && Parent(PathOf(e)) in st.tree
    requires EntryWellFormed(es, e) && e.kind == Hardlink && KeysWithin(es + [e], st.tree)
    requires Fill(st, e).Ok?
    ensures Inv(es + [e], Fill(st, e).value)
  {
    var st', c := Fill(st, e).value, Origin(es, Clean(e.linkname));
    FillHardlinkIs(es, e, st);
    AliasedKeeps(es, e, st.tree, st'.tree, c);
    AliasNodeOk(es, e);
    FillKeeps(es, e, st, st');
  }

  lemma AliasNodeOk(es: seq<Entry>, e: Entry)
    requires e.kind == Hardlink
    ensures NodeOk(es + [e], PathOf(e), AliasNode(e, Origin(es, Clean(e.linkname))))
  {
    IndexStep(es, e, PathOf(e));
    OriginStep(es, e, PathOf(e));
  }

  ghost predicate KeysWithin(es: seq<Entry>, t: Tree) {
    forall q :: q in t ==> Exists(es, q)
  }

  lemma TargetIsListed(es: seq<Entry>, e: Entry, t: Tree)
    requires KeysWithin(es + [e], t) && EntryWellFormed(es, e) && e.kind == Hardlink && Clean(e.linkname) in t
    ensures Clean(e.linkname) != PathOf(e) && Listed(es, Clean(e.linkname))
  {
    var q, es' := Clean(e.linkname), es + [e];
    assert Exists(es', q);
    var j :| 0 <= j < |es'| && Prefix(q, PathOf(es'[j]));
    assert !StrictPrefix(q, PathOf(es'[j]));
    assert PathOf(es'[j]) == q && es'[j] == es[j];
  }

  /** A hardlink's target was listed earlier and is not a directory; the alias goes to its origin. */
  lemma TargetOrigin(es: seq<Entry>, e: Entry, t: Tree)
    requires NodesOk(es, t) && AliasesEnd(t) && KeysWithin(es + [e], t)
    requires EntryWellFormed(es, e) && e.kind == Hardlink && Clean(e.linkname) in t
    ensures var q := Clean(e.linkname);
            q != PathOf(e) && Canonical(t, q) == Origin(es, q) && Canonical(t, q) in t && !RealDir(t, Canonical(t, q))
            && t[Canonical(t, q)].hardTo == None
  {
    var q := Clean(e.linkname);
    TargetIsListed(es, e, t);
    assert NodeOk(es, q, t[q]);
    var i := IndexOf(es, q).value;
    assert (es + [e])[i] == es[i];
  }

  // ---------------------------------------------------------------- the whole stream

  /** The graph has a node for every path the stream implies, and no other. */
  ghost predicate KeysOk(es: seq<Entry>, t: Tree) {
    forall q :: q in t <==> Exists(es, q)
  }

  ghost predicate Built(es: seq<Entry>, st: State) {
    Inv(es, st) && KeysOk(es, st.tree)
  }

  lemma ExistsStep(es: seq<Entry>, e: Entry, q: Path)
    ensures Exists(es + [e], q) <==> Exists(es, q) || Prefix(q, PathOf(e))
  {
    var es' := es + [e];
    if Exists(es, q) && q != [] {
      var i :| 0 <= i < |es| && Prefix(q, PathOf(es[i]));
      assert es'[i] == es[i];
    }
    if Prefix(q, PathOf(e)) {
      assert es'[|es|] == e;
    }
    if Exists(es', q) && q != [] {
      var i :| 0 <= i < |es'| && Prefix(q, PathOf(es'[i]));
      assert i < |es| ==> es[i] == es'[i];
    }
  }

  lemma CreateBuilt(es: seq<Entry>, st: State, e: Entry)
    requires Built(es, st) && PlainPath(PathOf(e)) && Create(st.tree, PathOf(e)).Ok?
    ensures var t := Create(st.tree, PathOf(e)).value;
            && Inv(es, State(t, st.out)) && PathOf(e) in t && (PathOf(e) != [] ==> Parent(PathOf(e)) in t)
            && KeysOk(es + [e], t)
  {
    var t := Create(st.tree, PathOf(e)).value;
    CreateKeeps(es, st, PathOf(e));
    if PathOf(e) != [] {
      assert RealDir(t, Parent(PathOf(e)));
    }
    forall q ensures q in t <==> Exists(es + [e], q) {
      CreateKeys(es, st, PathOf(e), q);
      ExistsStep(es, e, q);
    }
  }

  lemma FillKeys(st: State, e: Entry)
    requires PathOf(e) in st.tree && (e.kind != Dir ==> PathOf(e) != [] && Parent(PathOf(e)) in st.tree)
    requires Fill(st, e).Ok?
    ensures Fill(st, e).value.tree.Keys == st.tree.Keys
  {
    if e.kind != Dir {
      assert Detach(st.tree, e).Keys == st.tree.Keys;
    }
  }

  lemma FillInv(es: seq<Entry>, st: State, e: Entry)
    requires Inv(es, st) && KeysWithin(es + [e], st.tree) && EntryWellFormed(es, e)
    requires PathOf(e) in st.tree && (PathOf(e) != [] ==> Parent(PathOf(e)) in st.tree)
    requires Fill(st, e).Ok?
    ensures Inv(es + [e], Fill(st, e).value)
  {
    match e.kind
    case Dir => FillDirKeeps(es, e, st);
    case Hardlink => FillHardlinkKeeps(es, e, st);
    case _ => FillPlainKeeps(es, e, st);
  }

  lemma FillBuilt(es: seq<Entry>, st: State, e: Entry)
    requires Inv(es, st) && KeysOk(es + [e], st.tree) && EntryWellFormed(es, e)
    requires PathOf(e) in st.tree && (PathOf(e) != [] ==> Parent(PathOf(e)) in st.tree)
    requires Fill(st, e).Ok?
    ensures Built(es + [e], Fill(st, e).value)
  {
    FillInv(es, st, e);
    FillKeys(st, e);
    var t' := Fill(st, e).value.tree;
    forall q ensures q in t' <==> Exists(es + [e], q) {
      assert q in t' <==> q in st.tree.Keys;
    }
  }

  /** addEntry after the entries es: the graph it leaves is the one the longer stream declares. */
  ghost function AddEntry(es: seq<Entry>, st: State, e: Entry): (r: Result<State>)
    requires Built(es, st) && EntryWellFormed(es, e)
    ensures r.Ok? ==> Built(es + [e], r.value)
  {
    match Create(st.tree, PathOf(e))
    case Err => Err
    case Ok(t) =>
      CreateBuilt(es, st, e);
      var r := Fill(State(t, st.out), e);
      assert r.Ok? ==> Built(es + [e], r.value) by {
        if r.Ok? {
          FillBuilt(es, State(t, st.out), e);
        }
      }
      r
  }

  lemma StartBuilt()
    ensures Built([], EmptyState())
  {
    var t := EmptyState().tree;
    assert SubDirs(t, []) == {};
    assert LinkOk(t, []);
    forall q ensures q in t <==> Exists([], q) {
    }
  }

  lemma WellFormedInit(es: seq<Entry>)
    requires WellFormed(es) && es != []
    ensures WellFormed(es[..|es| - 1]) && EntryWellFormed(es[..|es| - 1], es[|es| - 1])
  {
    var init := es[..|es| - 1];
    forall i | 0 <= i < |init| ensures EntryWellFormed(init[..i], init[i]) {
      assert init[..i] == es[..i];
    }
  }

  /** The graph and data after the whole stream. */
  ghost function Build(es: seq<Entry>): (r: Result<State>)
    requires WellFormed(es)
    ensures r.Ok? ==> Built(es, r.value)
  {
    if es == [] then
      StartBuilt();
      Ok(EmptyState())
    else
      WellFormedInit(es);
      var init, e := es[..|es| - 1], es[|es| - 1];
      assert init + [e] == es;
      match Build(init)
      case Err => Err
      case Ok(st) => AddEntry(init, st, e)
  }

  // ---------------------------------------------------------------- exactly which streams are accepted

  /** Nothing but directories is listed on the way to p. */
  predicate DirsAbove(es: seq<Entry>, p: Path) {
    forall i :: 0 <= i < |es| && StrictPrefix(PathOf(es[i]), p) ==> es[i].kind == Dir
  }

  predicate ShortNames(p: Path) {
    forall i :: 0 <= i < |p| ==> |p[i]| <= 255
  }

  /** Nothing is listed below p. */
  predicate NoneBelow(es: seq<Entry>, p: Path) {
    forall i :: 0 <= i < |es| ==> !StrictPrefix(p, PathOf(es[i]))
  }

  /** No listed non-directory lies on the way to the entry or has anything below it; its link target exists. */
  predicate Accepts(es: seq<Entry>, e: Entry) {
    && DirsAbove(es, PathOf(e)) && ShortNames(PathOf(e))
    && (e.kind != Dir ==> NoneBelow(es, PathOf(e)))
    && (e.kind == Reg && e.size != 0 ==> |e.data| == e.size)
    && (e.kind == Hardlink ==> Listed(es, Clean(e.linkname)))
  }

  ghost predicate Passable(t: Tree, p: Path) {
    && (forall q :: q in t && StrictPrefix(q, p) ==> RealDir(t, q))
    && ShortNames(p)
  }

  lemma {:induction false} CreateOk(es: seq<Entry>, st: State, p: Path)
    requires Inv(es, st) && PlainPath(p)
    ensures Create(st.tree, p).Ok? <==> Passable(st.tree, p)
    decreases |p|
  {
    var t := st.tree;
    if p == [] {
    } else if p in t {
      InTreePassable(t, p);
    } else {
      var par := Parent(p);
      CreateOk(es, st, par);
      PassableParent(t, p);
      if Create(t, par).Ok? {
        CreateKeeps(es, st, par);
        CreateNew(es, st, par);
      }
    }
  }

  lemma PassableParent(t: Tree, p: Path)
    requires p != []
    ensures Passable(t, p) <==>
              Passable(t, Parent(p)) && (Parent(p) in t ==> RealDir(t, Parent(p))) && |Base(p)| <= 255
  {
    forall q ensures StrictPrefix(q, p) <==> StrictPrefix(q, Parent(p)) || q == Parent(p) {
      PrefixSplit(q, p);
    }
    assert Passable(t, p) ==> forall i :: 0 <= i < |Parent(p)| ==> Parent(p)[i] == p[i];
  }

  lemma {:induction false} InTreePassable(t: Tree, p: Path)
    requires Shape(t) && p in t
    ensures Passable(t, p)
    decreases |p|
  {
    if p != [] {
      assert RealDir(t, Parent(p));
      InTreePassable(t, Parent(p));
      PassableParent(t, p);
    }
  }

  /** What lookup returns for p is an existing node or a new directory. */
  lemma {:induction false} CreateNew(es: seq<Entry>, st: State, p: Path)
    requires Inv(es, st) && PlainPath(p) && Create(st.tree, p).Ok?
    ensures p in Create(st.tree, p).value
    ensures RealDir(Create(st.tree, p).value, p) <==> p !in st.tree || RealDir(st.tree, p)
    decreases |p|
  {
    CreateKeeps(es, st, p);
  }

  lemma PathsDiffer(es: seq<Entry>, i: nat, j: nat)
    requires WellFormed(es) && i < j < |es|
    ensures PathOf(es[i]) != PathOf(es[j])
  {
    assert EntryWellFormed(es[..j], es[j]);
    assert es[..j][i] == es[i];
  }

  lemma IndexUnique(es: seq<Entry>, i: nat)
    requires WellFormed(es) && i < |es|
    ensures IndexOf(es, PathOf(es[i])) == Some(i)
  {
    assert Listed(es, PathOf(es[i]));
    var k := IndexOf(es, PathOf(es[i])).value;
    if k < i {
      PathsDiffer(es, k, i);
    } else if i < k {
      PathsDiffer(es, i, k);
    }
  }

  lemma DirOrListed(es: seq<Entry>, t: Tree, q: Path)
    requires NodesOk(es, t) && q in t
    ensures RealDir(t, q) || exists i :: 0 <= i < |es| && PathOf(es[i]) == q && es[i].kind != Dir
  {
    assert NodeOk(es, q, t[q]);
  }

  lemma ListedDir(es: seq<Entry>, t: Tree, i: nat)
    requires WellFormed(es) && NodesOk(es, t) && i < |es|
    ensures PathOf(es[i]) in t && (RealDir(t, PathOf(es[i])) ==> es[i].kind == Dir)
  {
    IndexUnique(es, i);
    assert NodeOk(es, PathOf(es[i]), t[PathOf(es[i])]);
  }

  lemma DirsPassable(es: seq<Entry>, t: Tree, p: Path)
    requires WellFormed(es) && NodesOk(es, t)
    ensures (forall q :: q in t && StrictPrefix(q, p) ==> RealDir(t, q)) <==> DirsAbove(es, p)
  {
    if DirsAbove(es, p) {
      forall q | q in t && StrictPrefix(q, p) ensures RealDir(t, q) {
        DirOrListed(es, t, q);
      }
    } else {
      var i :| 0 <= i < |es| && StrictPrefix(PathOf(es[i]), p) && es[i].kind != Dir;
      ListedDir(es, t, i);
    }
  }

  lemma ChildListed(es: seq<Entry>, e: Entry, t: Tree)
    requires Shape(t) && KeysOk(es + [e], t)
    ensures HasChild(t, PathOf(e)) <==> !NoneBelow(es, PathOf(e))
  {
    var p, es' := PathOf(e), es + [e];
    if HasChild(t, p) {
      var q :| q in t && IsChild(p, q);
      assert Exists(es', q);
      var i :| 0 <= i < |es'| && Prefix(q, PathOf(es'[i]));
      assert p == PathOf(es'[i])[..|q|][..|p|] == PathOf(es'[i])[..|p|];
      assert StrictPrefix(p, PathOf(es'[i]));
      assert es'[i] == es[i];
    }
    if i :| 0 <= i < |es| && StrictPrefix(p, PathOf(es[i])) {
      var r := PathOf(es[i]);
      assert es'[i] == es[i] && Prefix(r, r);
      assert Exists(es', r);
      PrefixesIn(t, r, r[..|p| + 1]);
      assert IsChild(p, r[..|p| + 1]) by {
        assert r[..|p| + 1][..|p|] == r[..|p|];
      }
    }
  }

  lemma TargetListed(es: seq<Entry>, e: Entry, t: Tree)
    requires KeysOk(es + [e], t) && EntryWellFormed(es, e) && e.kind == Hardlink
    ensures Clean(e.linkname) in t <==> Listed(es, Clean(e.linkname))
  {
    var q, es' := Clean(e.linkname), es + [e];
    if q in t {
      assert Exists(es', q);
      var j :| 0 <= j < |es'| && Prefix(q, PathOf(es'[j]));
      assert !StrictPrefix(q, PathOf(es'[j]));
      assert es'[j] == es[j];
    }
    if Listed(es, q) {
      var i :| 0 <= i < |es| && PathOf(es[i]) == q;
      assert es'[i] == es[i] && Prefix(q, q);
    }
  }

  lemma FinishOk(st: State, e: Entry)
    requires PathOf(e) in st.tree
    ensures Finish(st, e).Ok? <==>
              && (e.kind == Reg && e.size != 0 ==> |e.data| == e.size)
              && (e.kind == Hardlink ==> Link(st.tree, PathOf(e), Clean(e.linkname)).Ok?)
  {
  }

  lemma DetachedTarget(es: seq<Entry>, e: Entry, t: Tree)
    requires Shape(t) && NodesOk(es, t) && PathOf(e) in t && PathOf(e) != []
    requires EntryWellFormed(es, e) && e.kind == Hardlink && KeysWithin(es + [e], t)
    ensures Parent(PathOf(e)) in t
    ensures Link(Detach(t, e), PathOf(e), Clean(e.linkname)).Ok? <==> Clean(e.linkname) in t
  {
    DetachIs(es, e, t);
    if Clean(e.linkname) in t {
      var c := AliasTarget(es, e, t);
    }
  }

  lemma FillOk(es: seq<Entry>, e: Entry, st: State)
    requires Inv(es, st) && KeysOk(es + [e], st.tree) && EntryWellFormed(es, e)
    requires PathOf(e) in st.tree && (PathOf(e) != [] ==> Parent(PathOf(e)) in st.tree)
    ensures Fill(st, e).Ok? <==>
              && (e.kind != Dir ==> !HasChild(st.tree, PathOf(e)))
              && (e.kind == Reg && e.size != 0 ==> |e.data| == e.size)
              && (e.kind == Hardlink ==> Clean(e.linkname) in st.tree)
  {
    if e.kind != Dir && !HasChild(st.tree, PathOf(e)) {
      DetachIs(es, e, st.tree);
      FinishOk(State(Detach(st.tree, e), st.out), e);
      if e.kind == Hardlink {
        DetachedTarget(es, e, st.tree);
      }
    }
  }

  lemma CreateAccepts(es: seq<Entry>, st: State, p: Path)
    requires WellFormed(es) && Built(es, st) && PlainPath(p)
    ensures Create(st.tree, p).Ok? <==> DirsAbove(es, p) && ShortNames(p)
  {
    CreateOk(es, st, p);
    DirsPassable(es, st.tree, p);
  }

  lemma FillAccepts(es: seq<Entry>, st: State, e: Entry) returns (t: Tree)
    requires Built(es, st) && EntryWellFormed(es, e) && Create(st.tree, PathOf(e)).Ok?
    ensures t == Create(st.tree, PathOf(e)).value && PathOf(e) in t && (PathOf(e) != [] ==> Parent(PathOf(e)) in t)
    ensures Fill(State(t, st.out), e).Ok? <==>
              && (e.kind != Dir ==> NoneBelow(es, PathOf(e)))
              && (e.kind == Reg && e.size != 0 ==> |e.data| == e.size)
              && (e.kind == Hardlink ==> Listed(es, Clean(e.linkname)))
  {
    t := Create(st.tree, PathOf(e)).value;
    CreateBuilt(es, st, e);
    FillOk(es, e, State(t, st.out));
    ChildListed(es, e, t);
    if e.kind == Hardlink {
      TargetListed(es, e, t);
    }
  }

  lemma AddEntryFills(es: seq<Entry>, st: State, e: Entry)
    requires Built(es, st) && EntryWellFormed(es, e)
    ensures Create(st.tree, PathOf(e)).Err? ==> AddEntry(es, st, e).Err?
    ensures var t := Create(st.tree, PathOf(e));
            t.Ok? && PathOf(e) in t.value && (PathOf(e) != [] ==> Parent(PathOf(e)) in t.value) ==>
              AddEntry(es, st, e) == Fill(State(t.value, st.out), e)
  {
  }

  /** addEntry succeeds exactly on the entries the earlier stream leaves room for. */
  lemma AddEntryOk(es: seq<Entry>, st: State, e: Entry)
    requires WellFormed(es) && Built(es, st) && EntryWellFormed(es, e)
    ensures AddEntry(es, st, e).Ok? <==> Accepts(es, e)
  {
    CreateAccepts(es, st, PathOf(e));
    AddEntryFills(es, st, e);
    if Create(st.tree, PathOf(e)).Ok? {
      var t := FillAccepts(es, st, e);
    }
  }

  ghost predicate AllAccepted(es: seq<Entry>) {
    forall i :: 0 <= i < |es| ==> Accepts(es[..i], es[i])
  }

  lemma AcceptedInit(es: seq<Entry>)
    requires es != []
    ensures AllAccepted(es) <==> AllAccepted(es[..|es| - 1]) && Accepts(es[..|es| - 1], es[|es| - 1])
  {
    var init := es[..|es| - 1];
    forall i | 0 <= i < |init| ensures init[..i] == es[..i] && init[i] == es[i] {
    }
  }

  /** Convert gets past the tar stream exactly when every entry fits what came before it. */
  lemma {:induction false} BuildOk(es: seq<Entry>)
    requires WellFormed(es)
    ensures Build(es).Ok? <==> AllAccepted(es)
  {
    if es != [] {
      WellFormedInit(es);
      AcceptedInit(es);
      var init, e := es[..|es| - 1], es[|es| - 1];
      BuildOk(init);
      if Build(init).Ok? {
        AddEntryOk(init, Build(init).value, e);
      }
    }
  }

  lemma WellFormedPrefix(es: seq<Entry>, i: nat)
    requires WellFormed(es) && i <= |es|
    ensures WellFormed(es[..i])
  {
    forall j | 0 <= j < i ensures EntryWellFormed(es[..i][..j], es[..i][j]) {
      assert es[..i][..j] == es[..j];
    }
  }

  lemma {:induction false} BuildFailed(es: seq<Entry>, pre: seq<Entry>)
    requires WellFormed(es) && pre <= es && WellFormed(pre)
    ensures Build(pre).Err? ==> Build(es).Err?
    decreases |es|
  {
    if |pre| < |es| {
      WellFormedInit(es);
      BuildFailed(es[..|es| - 1], pre);
      FailedLast(es);
    } else {
      assert pre == es;
    }
  }

  lemma FailedLast(es: seq<Entry>)
    requires WellFormed(es) && es != [] && WellFormed(es[..|es| - 1])
    ensures Build(es[..|es| - 1]).Err? ==> Build(es).Err?
  {
  }

  lemma BuildSnoc(es: seq<Entry>, init: seq<Entry>, e: Entry)
    requires WellFormed(es) && es != [] && es[..|es| - 1] == init && es[|es| - 1] == e && WellFormed(init)
    requires Build(init).Ok?
    ensures EntryWellFormed(init, e) && Build(es) == AddEntry(init, Build(init).value, e)
  {
    WellFormedInit(es);
  }

  lemma Prefixes(es: seq<Entry>, i: nat) returns (init: seq<Entry>, next: seq<Entry>)
    requires WellFormed(es) && i < |es|
    ensures init == es[..i] && next == es[..i + 1]
    ensures next != [] && next[..|next| - 1] == init && next[|next| - 1] == es[i]
    ensures WellFormed(next) && next <= es
  {
    init, next := es[..i], es[..i + 1];
    WellFormedPrefix(es, i + 1);
  }

  /** One more entry of the stream; a failed one fails the whole conversion. */
  lemma BuildStep(es: seq<Entry>, i: nat) returns (init: seq<Entry>, next: seq<Entry>)
    requires WellFormed(es) && i < |es| && WellFormed(es[..i]) && Build(es[..i]).Ok?
    ensures init == es[..i] && next == es[..i + 1]
    ensures WellFormed(next) && EntryWellFormed(init, es[i])
    ensures Build(next) == AddEntry(init, Build(init).value, es[i])
    ensures Build(next).Err? ==> Build(es).Err?
  {
    init, next := Prefixes(es, i);
    BuildSnoc(next, init, es[i]);
    BuildFailed(es, next);
  }
}
