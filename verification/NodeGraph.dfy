/**
 The writer's node objects, the graph they form as a value, and the pure steps that
 keep parent pointers, children and alias pointers in agreement.
 */
module NodeGraph {
  import opened Wrappers
  import opened Bytes
  import opened Sorting
  import opened TarTree
  import opened TarInvariant
  import opened Walk
  import opened Image

  class FsNode {
    ghost const path: Path
    const name: Name
    const parent: FsNode?
    var children: map<Name, FsNode>

    var mode: nat
    var uid: nat
    var gid: nat
    var mtime: int64
    var rdev: nat

    var size: nat
    var blkaddr: nat
    var nlink: nat
    var ftype: byte
    var nid: nat
    var ino: nat
    var hardTo: FsNode?

    /** A node starts out as a directory with no entry of its own. */
    constructor (ghost path: Path, name: Name, parent: FsNode?)
      ensures this.path == path && this.name == name && this.parent == parent
      ensures children == map[] && Rec() == NewDir() && hardTo == null
    {
      this.path, this.name, this.parent := path, name, parent;
      children := map[];
      mode, ftype, nlink := IMPLICIT_MODE, FT_DIR, 2;
      uid, gid, mtime, rdev := 0, 0, 0, 0;
      size, blkaddr, nid, ino := 0, 0, 0, 0;
      hardTo := null;
    }

    predicate IsDir()
      reads this
    {
      ftype == FT_DIR
    }

    /** The node's fields, with the alias pointer given as the target's path. */
    ghost function Rec(): Node
      reads this
    {
      Node(ftype, mode, uid, gid, mtime, rdev, size, blkaddr, nlink, nid, ino,
           if hardTo == null then None else Some(hardTo.path))
    }

    /** Ownership, time, mode and type as the entry gives them; a hardlink's node keeps its directory look. */
    method SetAttributes(e: Entry)
      modifies this
      ensures Rec() == Describe(old(Rec()), e) && children == old(children) && hardTo == old(hardTo)
    {
      uid := Uint32(e.uid);
      gid := Uint32(e.gid);
      mtime := e.mtime;
      if e.kind != Hardlink {
        mode := e.mode % 4096 + FormatBits(e.kind);
        ftype := FileType(e.kind);
        if e.kind == CharDev || e.kind == BlockDev {
          rdev := MkDev(e.major, e.minor);
        }
      }
    }

    method SetExtent(size: nat, blkaddr: nat)
      modifies this
      ensures Rec() == old(Rec()).(size := size, blkaddr := blkaddr)
      ensures children == old(children) && hardTo == old(hardTo)
    {
      this.size := size;
      this.blkaddr := blkaddr;
    }

    method SetNumber(nid: nat, ino: nat)
      modifies this
      ensures Rec() == old(Rec()).(nid := nid, ino := ino) && children == old(children) && hardTo == old(hardTo)
    {
      this.nid := nid;
      this.ino := ino;
    }

    method SetLinks(nlink: nat)
      modifies this
      ensures Rec() == old(Rec()).(nlink := nlink) && children == old(children) && hardTo == old(hardTo)
    {
      this.nlink := nlink;
    }
  }

  /** The node graph at one moment: who is where, what each node holds, its children and its alias target. */
  datatype Graph = Graph(nodes: map<Path, FsNode>, view: Tree,
                         kids: map<Path, map<Name, FsNode>>, alias: map<Path, FsNode?>)

  ghost predicate PathsOk(g: Graph) {
    && g.view.Keys == g.nodes.Keys && g.kids.Keys == g.nodes.Keys && g.alias.Keys == g.nodes.Keys
    && [] in g.nodes && g.nodes[[]].parent == null
    && (forall p :: p in g.nodes ==> g.nodes[p].path == p)
    && (forall p {:trigger Parent(p)} {:trigger Base(p)} :: p in g.nodes && p != [] ==>
          Parent(p) in g.nodes && g.nodes[p].parent == g.nodes[Parent(p)] && g.nodes[p].name == Base(p))
  }

  ghost predicate KidsOk(g: Graph) {
    && g.kids.Keys == g.nodes.Keys
    && forall p, n :: p in g.nodes ==>
         (n in g.kids[p] <==> p + [n] in g.nodes) && (n in g.kids[p] ==> g.kids[p][n] == g.nodes[p + [n]])
  }

  ghost predicate AliasesOk(g: Graph) {
    && g.alias.Keys == g.nodes.Keys && g.view.Keys == g.nodes.Keys && AliasesEnd(g.view)
    && (forall p :: p in g.nodes ==>
          if g.alias[p] == null then g.view[p].hardTo == None
          else g.view[p].hardTo == Some(g.alias[p].path) && g.alias[p].path in g.nodes
               && g.nodes[g.alias[p].path] == g.alias[p])
  }

  datatype Facet = Paths | Kids | Aliases

  ghost predicate Agrees(g: Graph, f: Facet) {
    match f
    case Paths => PathsOk(g)
    case Kids => KidsOk(g)
    case Aliases => AliasesOk(g)
  }

  /** Paths, parent pointers, children and alias pointers agree. */
  ghost predicate Linked(g: Graph) {
    forall f :: Agrees(g, f)
  }

  ghost predicate Wired(g: Graph) {
    Linked(g) && AliasesEnd(g.view) && [] in g.view && g.view.Keys == g.nodes.Keys
  }

  lemma LinkedParts(g: Graph)
    ensures Linked(g) <==> PathsOk(g) && KidsOk(g) && AliasesOk(g)
  {
    assert Agrees(g, Paths) == PathsOk(g);
    assert Agrees(g, Kids) == KidsOk(g);
    assert Agrees(g, Aliases) == AliasesOk(g);
  }

  lemma AliasFacts(g: Graph, p: Path)
    requires Linked(g) && p in g.nodes
    ensures p in g.alias && p in g.view && Canonical(g.view, p) in g.nodes && Canonical(g.view, p) in g.view
    ensures Canonical(g.view, p) in g.alias && g.alias[Canonical(g.view, p)] == null
    ensures if g.alias[p] == null then Canonical(g.view, p) == p
            else Canonical(g.view, p) == g.alias[p].path && g.nodes[g.alias[p].path] == g.alias[p]
  {
    LinkedParts(g);
  }

  // ---------------------------------------------------------------- graph steps

  /** The graph with a new directory node n at p. */
  ghost function Added(g: Graph, p: Path, n: FsNode): Graph
    requires p != [] && Parent(p) in g.view && Parent(p) in g.kids
  {
    Graph(g.nodes[p := n], AddDir(g.view, p),
          g.kids[Parent(p) := g.kids[Parent(p)][Base(p) := n]][p := map[]], g.alias[p := null])
  }

  lemma NoKids(g: Graph, p: Path, c: Name)
    requires PathsOk(g) && p !in g.nodes
    ensures p + [c] !in g.nodes
  {
    assert Parent(p + [c]) == p;
  }

  lemma AddedKids(g: Graph, p: Path, n: FsNode)
    requires PathsOk(g) && KidsOk(g) && p != [] && p !in g.nodes && Parent(p) in g.nodes
    ensures KidsOk(Added(g, p, n))
  {
    var g' := Added(g, p, n);
    forall q, c | q in g'.nodes
      ensures (c in g'.kids[q] <==> q + [c] in g'.nodes) && (c in g'.kids[q] ==> g'.kids[q][c] == g'.nodes[q + [c]])
    {
      NoKids(g, p, c);
      Split(q, c, p);
      assert p !in g.nodes && q in g.nodes ==> (c in g.kids[q] <==> q + [c] in g.nodes);
    }
  }

  lemma Split(q: Path, c: Name, p: Path)
    requires p != []
    ensures q + [c] == p <==> q == Parent(p) && c == Base(p)
  {
    assert p == Parent(p) + [Base(p)];
    assert Parent(q + [c]) == q && Base(q + [c]) == c;
  }

  lemma AddedPaths(g: Graph, p: Path, n: FsNode)
    requires PathsOk(g) && p != [] && p !in g.nodes && Parent(p) in g.nodes
    requires n.path == p && n.name == Base(p) && n.parent == g.nodes[Parent(p)]
    ensures PathsOk(Added(g, p, n))
  {
  }

  lemma AddedAliases(g: Graph, p: Path, n: FsNode)
    requires PathsOk(g) && AliasesOk(g) && p != [] && p !in g.nodes && RealDir(g.view, Parent(p))
    ensures AliasesOk(Added(g, p, n))
  {
    AddDirAliases(g.view, p);
  }

  lemma AddedLinked(g: Graph, p: Path, n: FsNode)
    requires Linked(g) && p != [] && p !in g.nodes && RealDir(g.view, Parent(p)) && Parent(p) in g.kids
    requires Parent(p) in g.nodes && n.path == p && n.name == Base(p) && n.parent == g.nodes[Parent(p)]
    ensures Wired(Added(g, p, n))
  {
    LinkedParts(g);
    LinkedParts(Added(g, p, n));
    AddedPaths(g, p, n);
    AddedKids(g, p, n);
    AddedAliases(g, p, n);
  }

  /** Field updates that keep every pointer keep the graph linked. */
  lemma SamePointers(g: Graph, g': Graph)
    requires Linked(g) && g'.nodes == g.nodes && g'.view.Keys == g.view.Keys
    requires g'.kids == g.kids && g'.alias == g.alias && AliasesEnd(g'.view)
    requires forall q :: q in g.view ==> g'.view[q].hardTo == g.view[q].hardTo
    ensures Wired(g')
  {
    LinkedParts(g);
    LinkedParts(g');
  }

  lemma NoKidsCleared(g: Graph, p: Path)
    requires PathsOk(g) && KidsOk(g) && p in g.nodes && !HasChild(g.view, p)
    ensures g.kids[p] == map[]
  {
    forall c ensures c !in g.kids[p] {
      assert IsChild(p, p + [c]);
    }
  }

  lemma DetachAliases(t: Tree, e: Entry)
    requires AliasesEnd(t) && RealDir(t, PathOf(e)) && PathOf(e) != [] && Parent(PathOf(e)) in t
    ensures var t' := Detach(t, e);
            && t'.Keys == t.Keys && AliasesEnd(t') && forall q :: q in t ==> t'[q].hardTo == t[q].hardTo
  {
    var p, t' := PathOf(e), Detach(t, e);
    assert forall q :: q in t && q != p ==> t'[q].hardTo == t[q].hardTo && t'[q].ftype == t[q].ftype;
  }

  lemma DetachedLinked(g: Graph, g': Graph, e: Entry)
    requires Linked(g) && RealDir(g.view, PathOf(e)) && !HasChild(g.view, PathOf(e))
    requires PathOf(e) != [] && Parent(PathOf(e)) in g.view && PathOf(e) in g.alias
    requires g'.nodes == g.nodes && g'.view == Detach(g.view, e)
    requires g'.kids == g.kids[PathOf(e) := map[]] && g'.alias == g.alias[PathOf(e) := g.alias[PathOf(e)]]
    ensures Wired(g')
  {
    LinkedParts(g);
    NoKidsCleared(g, PathOf(e));
    assert g'.kids == g.kids && g'.alias == g.alias;
    DetachAliases(g.view, e);
    SamePointers(g, g');
  }

  lemma AliasPointers(g: Graph, g': Graph, p: Path, c: Path)
    requires AliasesOk(g) && RealDir(g.view, p) && c in g.view && g.view[c].hardTo == None && g.view[c].ftype != FT_DIR
    requires p in g.nodes && c in g.nodes && g.nodes[c].path == c
    requires g'.nodes == g.nodes && g'.alias == g.alias[p := g.nodes[c]]
    requires g'.view == g.view[p := g.view[p].(hardTo := Some(c))][c := g.view[c].(nlink := Inc(g.view[c].nlink))]
    ensures AliasesOk(g')
  {
    AliasAdded(g.view, g'.view, p, c);
  }

  /** Pointing p at the inode c keeps the graph linked. */
  lemma LinkedAlias(g: Graph, g': Graph, p: Path, c: Path)
    requires Linked(g) && RealDir(g.view, p) && c in g.view && g.view[c].hardTo == None && g.view[c].ftype != FT_DIR
    requires p in g.nodes && c in g.nodes && p in g.kids
    requires g'.nodes == g.nodes && g'.kids == g.kids[p := g.kids[p]] && g'.alias == g.alias[p := g.nodes[c]]
    requires g'.view == g.view[p := g.view[p].(hardTo := Some(c))][c := g.view[c].(nlink := Inc(g.view[c].nlink))]
    ensures Wired(g')
  {
    LinkedParts(g);
    LinkedParts(g');
    assert g'.kids == g.kids;
    assert PathsOk(g');
    AliasPointers(g, g', p, c);
  }

  lemma AliasAdded(t: Tree, t': Tree, p: Path, c: Path)
    requires AliasesEnd(t) && RealDir(t, p) && c in t && t[c].hardTo == None && t[c].ftype != FT_DIR
    requires t' == t[p := t[p].(hardTo := Some(c))][c := t[c].(nlink := Inc(t[c].nlink))]
    ensures AliasesEnd(t')
  {
    forall q | q in t' && t'[q].hardTo.Some?
      ensures t'[q].hardTo.value in t' && t'[t'[q].hardTo.value].hardTo.None?
      ensures t'[t'[q].hardTo.value].ftype != FT_DIR
    {
      assert q != p ==> t[q].hardTo == t'[q].hardTo;
    }
  }

  lemma StreamLinked(g: Graph, g': Graph, p: Path, data: seq<byte>, size: nat, out: seq<byte>, ok: bool)
    requires Linked(g) && p in g.view && g' == g.(view := g'.view)
    requires ok == Stream(State(g.view, out), p, data, size).Ok?
    requires ok ==> g'.view == Stream(State(g.view, out), p, data, size).value.tree
    ensures ok ==> Wired(g')
  {
    if ok {
      LinkedParts(g);
      assert forall q :: q in g.view ==> g'.view[q].hardTo == g.view[q].hardTo && g'.view[q].ftype == g.view[q].ftype;
      SamePointers(g, g');
    }
  }

  lemma DirLinked(g: Graph, g': Graph, e: Entry)
    requires Linked(g) && e.kind == Dir && RealDir(g.view, PathOf(e))
    requires g' == g.(view := g.view[PathOf(e) := Describe(g.view[PathOf(e)], e)])
    ensures Wired(g')
  {
    LinkedParts(g);
    assert forall q :: q in g.view ==> g'.view[q].hardTo == g.view[q].hardTo && g'.view[q].ftype == g.view[q].ftype;
    SamePointers(g, g');
  }

  lemma KidsEmpty(g: Graph, p: Path)
    requires Linked(g) && p in g.nodes
    ensures p in g.kids && (g.kids[p] == map[] <==> !HasChild(g.view, p))
  {
    LinkedParts(g);
    if HasChild(g.view, p) {
      var q :| q in g.view && IsChild(p, q);
      assert q == p + [Base(q)];
      assert Base(q) in g.kids[p];
    } else {
      NoKidsCleared(g, p);
    }
  }

  /** Detaching leaves a hardlink's own node looking like a directory, and its target as it was. */
  lemma DetachKeepsTarget(t: Tree, e: Entry)
    requires RealDir(t, PathOf(e)) && PathOf(e) != [] && Parent(PathOf(e)) in t
    ensures var t' := Detach(t, e);
            && t'.Keys == t.Keys
            && (e.kind == Hardlink ==> RealDir(t', PathOf(e)))
            && forall q :: q in t && q != PathOf(e) ==> RealDir(t', q) == RealDir(t, q)
  {
    var p, t' := PathOf(e), Detach(t, e);
    assert forall q :: q in t && q != p ==> t'[q].hardTo == t[q].hardTo && t'[q].ftype == t[q].ftype;
  }

  /** The entry's node is a fresh directory and its link target, if any, is not a directory. */
  ghost predicate Fillable(t: Tree, e: Entry) {
    && RealDir(t, PathOf(e)) && (e.kind != Dir ==> PathOf(e) != [] && Parent(PathOf(e)) in t)
    && (e.kind == Hardlink ==> Clean(e.linkname) != PathOf(e))
    && (e.kind == Hardlink && Clean(e.linkname) in t ==> !RealDir(t, Clean(e.linkname)))
  }

  lemma ReadyToFill(es: seq<Entry>, st: State, e: Entry)
    requires Built(es, st) && EntryWellFormed(es, e) && Create(st.tree, PathOf(e)).Ok?
    ensures Fillable(Create(st.tree, PathOf(e)).value, e)
  {
    var t := Create(st.tree, PathOf(e)).value;
    CreateBuilt(es, st, e);
    FreshNode(es, t, PathOf(e));
    if e.kind == Hardlink && Clean(e.linkname) in t {
      TargetOrigin(es, e, t);
      CanonicalDir(t, Clean(e.linkname));
    }
  }

  lemma AddEntryIs(es: seq<Entry>, st: State, e: Entry)
    requires Built(es, st) && EntryWellFormed(es, e)
    ensures AliasesEnd(st.tree) && [] in st.tree
    ensures var t := Create(st.tree, PathOf(e));
            && (t.Ok? ==> Fillable(t.value, e))
            && (t.Err? ==> AddEntry(es, st, e).Err?)
            && (t.Ok? ==> AddEntry(es, st, e) == Fill(State(t.value, st.out), e))
  {
    if Create(st.tree, PathOf(e)).Ok? {
      ReadyToFill(es, st, e);
      CreateBuilt(es, st, e);
    }
  }

  lemma PathPointers(g: Graph, p: Path)
    requires Linked(g) && p in g.nodes && p != []
    ensures Parent(p) in g.nodes && g.nodes[p].parent == g.nodes[Parent(p)]
  {
    LinkedParts(g);
  }

  lemma PadAmount(before: nat, size: nat)
    requires before % 4096 == 0
    ensures var blocks := (size + 4095) / 4096;
            && 0 <= blocks * 4096 - size == (4096 - (before + size) % 4096) % 4096
            && (before + size + (blocks * 4096 - size)) / 4096 == before / 4096 + blocks
  {
  }

  lemma BlocksAdd(before: nat, blocks: nat)
    ensures Uint32(Uint32(before) + Uint32(blocks)) == Uint32(before + blocks)
  {
  }

  lemma StartOut()
    ensures Sized(Zeros(4096)) && NextBlk(Zeros(4096)) == 1
  {
  }

  ghost function StartGraph(r: FsNode): Graph {
    Graph(map[[] := r], map[[] := NewDir()], map[[] := map[]], map[[] := null])
  }

  lemma CreateStep(t: Tree, p: Path)
    requires AliasesEnd(t) && [] in t && p != [] && p !in t
    ensures Create(t, p).Ok? <==>
              Create(t, Parent(p)).Ok? && RealDir(Create(t, Parent(p)).value, Parent(p)) && |Base(p)| <= 255
    ensures Create(t, p).Ok? ==>
              Parent(p) in Create(t, Parent(p)).value && Create(t, p).value == AddDir(Create(t, Parent(p)).value, p)
  {
  }

  lemma CanonicalDir(t: Tree, p: Path)
    requires AliasesEnd(t) && p in t
    ensures RealDir(t, p) <==> t[Canonical(t, p)].ftype == FT_DIR
    ensures RealDir(t, p) ==> Canonical(t, p) == p
  {
  }

  /** Looking a path up creates nothing longer than the path. */
  lemma {:induction false} CreateAddsAbove(t: Tree, p: Path, q: Path)
    requires AliasesEnd(t) && [] in t && |q| > |p| && q !in t
    ensures Create(t, p).Ok? ==> q !in Create(t, p).value
    decreases |p|
  {
    if p != [] && p !in t {
      CreateAddsAbove(t, Parent(p), q);
    }
  }

  lemma StartLinked(r: FsNode)
    requires r.path == [] && r.parent == null
    ensures Wired(StartGraph(r))
  {
    var g := StartGraph(r);
    LinkedParts(g);
    assert AliasesEnd(g.view);
    forall p, n | p in g.nodes ensures n !in g.kids[p] && p + [n] !in g.nodes {
    }
  }

  lemma ChildrenFacts(g: Graph, p: Path)
    requires Linked(g) && p in g.nodes
    ensures p in g.kids && p in g.view && g.view.Keys == g.nodes.Keys
    ensures forall n :: n in g.kids[p] <==> p + [n] in g.nodes
    ensures forall n :: n in g.kids[p] ==> g.kids[p][n] == g.nodes[p + [n]]
  {
    LinkedParts(g);
  }

  lemma ChildrenAreNames(g: Graph, p: Path)
    requires Linked(g) && p in g.nodes
    ensures p in g.kids && g.kids[p].Keys == ChildNames(g.view, p)
  {
    ChildrenFacts(g, p);
    forall n ensures n in g.kids[p].Keys <==> n in ChildNames(g.view, p) {
      ChildName(g.view, p, n);
    }
  }

  lemma ParentFacts(g: Graph, p: Path)
    requires Linked(g) && p in g.nodes
    ensures if p == [] then g.nodes[p].parent == null
            else Parent(p) in g.nodes && g.nodes[p].parent == g.nodes[Parent(p)]
  {
    LinkedParts(g);
  }

  lemma DotsNotChildren(t: Tree, p: Path)
    requires Shape(t)
    ensures DOT !in ChildNames(t, p) && DOTDOT !in ChildNames(t, p)
  {
    forall q | q in t && IsChild(p, q) ensures Base(q) != DOT && Base(q) != DOTDOT {
      assert PlainComponent(Base(q));
    }
  }

  lemma SameChildNames(t: Tree, t': Tree, p: Path)
    requires t.Keys == t'.Keys
    ensures ChildNames(t, p) == ChildNames(t', p)
  {
  }

  /** Placing a directory's data moves no pointer. */
  lemma PlacedLinked(g: Graph, g': Graph, p: Path, size: nat, blkaddr: nat)
    requires Wired(g) && p in g.view && g' == g.(view := g.view[p := g.view[p].(size := size, blkaddr := blkaddr)])
    ensures Wired(g')
  {
    assert forall q :: q in g.view ==> g'.view[q].hardTo == g.view[q].hardTo && g'.view[q].ftype == g.view[q].ftype;
    SamePointers(g, g');
  }

  /** Numbering moves no pointer. */
  lemma NumberedLinked(g: Graph, g': Graph, w: seq<Path>)
    requires Wired(g) && IsPlan(g.view, w) && WalksNodes(g.view, w) && g' == g.(view := Numbered(g.view, w, |w|))
    ensures Wired(g')
  {
    PlanParts(g.view, w);
    NumberedStaged(g.view, w);
    forall q | q in g.view ensures g'.view[q].hardTo == g.view[q].hardTo && g'.view[q].ftype == g.view[q].ftype {
      assert StagedAt(g.view, w, g'.view, q);
    }
    SamePointers(g, g');
  }
}
