/**
 The image writer as it runs: node objects updated in place and an output that only
 grows until the superblock is written. Every method is tied to the functions of
 TarTree, TarInvariant and Image.
 */
module ErofsWriter {
  import opened Wrappers
  import opened Bytes
  import opened Sorting
  import opened DirFormat
  import opened DirPacker
  import opened TarTree
  import opened TarInvariant
  import opened Walk
  import opened Image
  import opened NodeGraph
  import opened InodePacker

  class Writer {
    var out: seq<byte>
    var nextBlk: nat
    var inoSeq: nat
    var root: FsNode
    var byPath: map<Path, FsNode>

    ghost var graph: Graph      // what the node objects hold, as a value
    ghost var repr: set<FsNode> // the node objects

    /** The node at q is one of ours and holds what the graph says. */
    ghost predicate SameAt(q: Path)
      reads this`byPath, this`graph, this`repr, this`root, repr
    {
      && q in byPath && q in graph.view && q in graph.kids && q in graph.alias
      && byPath[q] in repr && byPath[q].path == q
      && byPath[q].Rec() == graph.view[q] && byPath[q].children == graph.kids[q] && byPath[q].hardTo == graph.alias[q]
    }

    /** The objects hold what the graph says, and each path has its own object. */
    ghost predicate Mirrored()
      reads this`byPath, this`graph, this`repr, this`root, repr
    {
      byPath == graph.nodes && forall q :: q in byPath ==> SameAt(q)
    }

    ghost predicate GraphOk()
      reads this`byPath, this`graph, this`repr, this`root, repr
    {
      Mirrored() && Wired(graph) && [] in byPath && root == byPath[[]]
    }

    ghost predicate Valid()
      reads this, repr
    {
      GraphOk() && Sized(out) && nextBlk == NextBlk(out)
    }

    constructor ()
      ensures Valid() && fresh(repr)
      ensures State(graph.view, out) == EmptyState() && inoSeq == 0
    {
      var r := new FsNode([], [], null);
      out := Zeros(4096);
      nextBlk := 1;
      inoSeq := 0;
      root := r;
      byPath := map[[] := r];
      graph := StartGraph(r);
      repr := {r};
      new;
      StartLinked(r);
      StartOut();
    }

    /** canonical: follow alias pointers to the node that is not one. */
    method CanonicalOf(n: FsNode) returns (c: FsNode)
      requires GraphOk() && n.path in byPath && byPath[n.path] == n
      ensures Canonical(graph.view, n.path) in byPath && c == byPath[Canonical(graph.view, n.path)]
      ensures c.hardTo == null
    {
      c := n;
      AliasFacts(graph, n.path);
      assert SameAt(n.path) && SameAt(Canonical(graph.view, n.path));
      while c.hardTo != null
        invariant c == n || (n.hardTo != null && c == n.hardTo && c.hardTo == null)
        decreases if c.hardTo == null then 0 else 1
      {
        c := c.hardTo;
      }
    }

    // -------------------------------------------------------------- lookup

    method Attach(p: Path, par: FsNode, base: Name) returns (n: FsNode)
      modifies this`byPath, par
      ensures fresh(n) && byPath == old(byPath)[p := n]
      ensures n.path == p && n.name == base && n.parent == par
      ensures n.Rec() == NewDir() && n.children == map[] && n.hardTo == null
      ensures par.children == old(par.children)[base := n] && par.hardTo == old(par.hardTo)
      ensures par.Rec() == old(par.Rec()).(nlink := Inc(old(par.nlink)))
    {
      n := new FsNode(p, base, par);
      par.children := par.children[base := n];
      par.nlink := Inc(par.nlink);
      byPath := byPath[p := n];
    }

    /** A new directory node under par, with the ".." link it costs par. */
    method AddNode(p: Path, par: FsNode, base: Name) returns (n: FsNode)
      requires Mirrored() && p != [] && p !in byPath && base == Base(p)
      requires Parent(p) in byPath && par == byPath[Parent(p)]
      modifies this`byPath, this`graph, this`repr, repr
      ensures Mirrored() && graph == Added(old(graph), p, n)
      ensures repr == old(repr) + {n} && fresh(n) && byPath == old(byPath)[p := n]
      ensures n.path == p && n.name == Base(p) && n.parent == par
    {
      assert SameAt(Parent(p));
      n := Attach(p, par, base);
      graph, repr := Added(graph, p, n), repr + {n};
      forall q | q in byPath ensures SameAt(q) {
        assert q != p ==> old(SameAt(q));
      }
    }

    /** The part of lookup that makes the node, once its parent was found. */
    method MakeChild(p: Path, up: FsNode) returns (r: Result<FsNode>)
      requires GraphOk() && p != [] && p !in byPath && Parent(p) in byPath && up == byPath[Parent(p)]
      modifies this`byPath, this`graph, this`repr, repr
      ensures GraphOk() && forall m :: m in repr ==> m in old(repr) || fresh(m)
      ensures r.Ok? <==> RealDir(old(graph.view), Parent(p)) && |Base(p)| <= 255
      ensures r.Ok? ==> graph.view == AddDir(old(graph.view), p) && p in byPath && r.value == byPath[p]
    {
      var par := CanonicalOf(up);
      assert SameAt(Canonical(graph.view, Parent(p)));
      CanonicalDir(graph.view, Parent(p));
      var base := Base(p);
      if !par.IsDir() || |base| > 255 {
        r := Err;
      } else {
        ghost var g := graph;
        var n := AddNode(p, par, base);
        AddedLinked(g, p, n);
        r := Ok(n);
      }
    }

    /** lookup(p, false): the node of a cleaned path, if there is one. */
    method Find(p: Path) returns (r: Result<FsNode>)
      requires GraphOk()
      ensures r.Ok? <==> p in graph.view
      ensures r.Ok? ==> p in byPath && r.value == byPath[p]
    {
      if p == [] {
        r := Ok(root);
      } else if p in byPath {
        r := Ok(byPath[p]);
      } else {
        r := Err;
      }
    }

    /** lookup(p, true): the node of a cleaned path, creating it and its parents on demand. */
    method Lookup(p: Path) returns (r: Result<FsNode>)
      requires GraphOk()
      modifies this`byPath, this`graph, this`repr, repr
      ensures GraphOk() && forall m :: m in repr ==> m in old(repr) || fresh(m)
      ensures r.Ok? == Create(old(graph.view), p).Ok?
      ensures r.Ok? ==> graph.view == Create(old(graph.view), p).value && p in byPath && r.value == byPath[p]
      decreases |p|
    {
      r := Find(p);
      if r.Err? {
        ghost var t := graph.view;
        CreateStep(t, p);
        CreateAddsAbove(t, Parent(p), p);
        r := Lookup(Parent(p));
        if r.Ok? {
          r := MakeChild(p, r.value);
        }
      }
    }

    // -------------------------------------------------------------- updating one node

    ghost predicate MirroredBut(p: Path)
      reads this`byPath, this`graph, this`repr, this`root, repr
    {
      && byPath == graph.nodes && p in byPath && byPath[p] in repr && byPath[p].path == p
      && p in graph.view && p in graph.kids && p in graph.alias
      && (forall q :: q in byPath && q != p ==> SameAt(q))
    }

    /** Record the fields of the node at p. */
    ghost method Sync(p: Path)
      requires p in byPath && MirroredBut(p)
      modifies this`graph
      ensures Mirrored()
      ensures graph == Graph(old(graph.nodes), old(graph.view)[p := byPath[p].Rec()],
                             old(graph.kids)[p := byPath[p].children], old(graph.alias)[p := byPath[p].hardTo])
    {
      graph := Graph(graph.nodes, graph.view[p := byPath[p].Rec()],
                     graph.kids[p := byPath[p].children], graph.alias[p := byPath[p].hardTo]);
    }

    /** Record the fields of the node at p when its pointers stayed. */
    ghost method SyncFields(p: Path, rec: Node)
      requires p in byPath && MirroredBut(p) && byPath[p].Rec() == rec
      requires byPath[p].children == graph.kids[p] && byPath[p].hardTo == graph.alias[p]
      modifies this`graph
      ensures Mirrored() && graph == old(graph).(view := old(graph.view)[p := rec])
    {
      graph := graph.(view := graph.view[p := rec]);
    }

    lemma MirrorFacts(p: Path)
      requires Mirrored() && p in byPath
      ensures SameAt(p) && MirroredBut(p)
    {
    }

    /** n.parent.nlink-- */
    method DropSubdir(ghost p: Path, n: FsNode)
      requires Mirrored() && p in byPath && n == byPath[p] && p != [] && Parent(p) in byPath
      requires n.parent == byPath[Parent(p)]
      modifies this`graph, repr
      ensures Mirrored()
      ensures var par := Parent(p);
              graph == old(graph).(view := old(graph.view)[par :=
                old(graph.view)[par].(nlink := Dec(old(graph.view)[par].nlink))])
    {
      MirrorFacts(Parent(p));
      n.parent.SetLinks(Dec(n.parent.nlink));
      SyncFields(Parent(p), n.parent.Rec());
    }

    /** One more name for the inode n. */
    method AddName(ghost p: Path, n: FsNode)
      requires Mirrored() && p in byPath && n == byPath[p]
      modifies this`graph, repr
      ensures Mirrored()
      ensures graph == old(graph).(view := old(graph.view)[p :=
                old(graph.view)[p].(nlink := Inc(old(graph.view)[p].nlink))])
    {
      MirrorFacts(p);
      n.SetLinks(Inc(n.nlink));
      SyncFields(p, n.Rec());
    }

    /** A pre-created directory node stops being one. */
    method ClearNode(ghost p: Path, n: FsNode)
      requires Mirrored() && p in byPath && n == byPath[p]
      modifies this`graph, repr
      ensures Mirrored()
      ensures graph == Graph(old(graph.nodes), old(graph.view)[p := old(graph.view)[p].(nlink := 1)],
                             old(graph.kids)[p := map[]], old(graph.alias)[p := old(graph.alias)[p]])
    {
      MirrorFacts(p);
      n.children := map[];
      n.nlink := 1;
      Sync(p);
    }

    /** The node becomes an alias of target. */
    method AliasNode(ghost p: Path, n: FsNode, target: FsNode)
      requires Mirrored() && p in byPath && n == byPath[p]
      modifies this`graph, repr
      ensures Mirrored()
      ensures graph == Graph(old(graph.nodes), old(graph.view)[p := old(graph.view)[p].(hardTo := Some(target.path))],
                             old(graph.kids)[p := old(graph.kids)[p]], old(graph.alias)[p := target])
    {
      MirrorFacts(p);
      n.hardTo := target;
      Sync(p);
    }

    method DescribeNode(ghost p: Path, n: FsNode, e: Entry)
      requires Mirrored() && p in byPath && n == byPath[p]
      modifies this`graph, repr
      ensures Mirrored()
      ensures graph == old(graph).(view := old(graph.view)[p := Describe(old(graph.view)[p], e)])
    {
      MirrorFacts(p);
      n.SetAttributes(e);
      SyncFields(p, n.Rec());
    }

    method PlaceNode(ghost p: Path, n: FsNode, size: nat, blkaddr: nat)
      requires Mirrored() && p in byPath && n == byPath[p]
      modifies this`graph, repr
      ensures Mirrored()
      ensures graph == old(graph).(view := old(graph.view)[p := old(graph.view)[p].(size := size, blkaddr := blkaddr)])
    {
      MirrorFacts(p);
      n.SetExtent(size, blkaddr);
      SyncFields(p, n.Rec());
    }

    // -------------------------------------------------------------- file data

    /** Pad what was just written to a block boundary and move the next free block past it. */
    method PadToBlock(ghost before: seq<byte>, size: nat)
      requires |before| % 4096 == 0 && |out| == |before| + size && nextBlk == NextBlk(before)
      modifies this`out, this`nextBlk
      ensures out == PadTo(old(out)) && nextBlk == NextBlk(out)
    {
      var blocks := (size + 4096 - 1) / 4096;
      var pad := blocks * 4096 - size;
      PadAmount(|before|, size);
      BlocksAdd(|before| / 4096, blocks);
      if pad > 0 {
        out := out + Zeros(pad);
      }
      nextBlk := Uint32(nextBlk + Uint32(blocks));
    }

    /** Append content and pad it, unless it is not as long as announced. */
    method CopyData(data: seq<byte>, size: nat) returns (ok: bool)
      requires Sized(out) && nextBlk == NextBlk(out)
      modifies this`out, this`nextBlk
      ensures ok == (|data| == size)
      ensures ok ==> out == PadTo(old(out) + data) && Sized(out) && nextBlk == NextBlk(out)
    {
      ghost var before := out;
      out := out + data;
      ok := |data| == size;
      if ok {
        PadToBlock(before, size);
      }
    }

    /** streamData: the content goes to the current block, an empty one nowhere. */
    method StreamData(ghost p: Path, n: FsNode, data: seq<byte>, size: nat) returns (ok: bool)
      requires Mirrored() && p in byPath && n == byPath[p] && Sized(out) && nextBlk == NextBlk(out)
      modifies this`graph, this`out, this`nextBlk, repr
      ensures Mirrored() && graph == old(graph).(view := graph.view)
      ensures ok == Stream(State(old(graph.view), old(out)), p, data, size).Ok?
      ensures ok ==> Sized(out) && nextBlk == NextBlk(out)
      ensures ok ==> State(graph.view, out) == Stream(State(old(graph.view), old(out)), p, data, size).value
    {
      PlaceNode(p, n, size, if size == 0 then 0 else nextBlk);
      if size == 0 {
        ok := true;
      } else {
        ok := CopyData(data, size);
      }
    }

    /** A pre-created directory is replaced by something else. */
    method DetachNode(ghost p: Path, n: FsNode, e: Entry)
      requires GraphOk() && p in byPath && n == byPath[p] && p == PathOf(e) && p != [] && Parent(p) in byPath
      requires RealDir(graph.view, p) && !HasChild(graph.view, p)
      modifies this`graph, repr
      ensures GraphOk()
      ensures Parent(p) in old(graph.view) && graph.view == Detach(old(graph.view), e)
    {
      ghost var g := graph;
      PathPointers(g, p);
      DropSubdir(p, n);
      ClearNode(p, n);
      DescribeNode(p, n, e);
      DetachedLinked(g, graph, e);
    }

    /** The node at p becomes another name of the inode at c. */
    method MakeAlias(ghost p: Path, n: FsNode, ghost c: Path, target: FsNode)
      requires GraphOk() && p in byPath && n == byPath[p] && RealDir(graph.view, p)
      requires c in byPath && target == byPath[c] && c in graph.view && graph.view[c].hardTo == None
      requires graph.view[c].ftype != FT_DIR
      modifies this`graph, repr
      ensures GraphOk()
      ensures graph.view == old(graph.view)[p := old(graph.view)[p].(hardTo := Some(c))]
                                           [c := old(graph.view)[c].(nlink := Inc(old(graph.view)[c].nlink))]
    {
      ghost var g := graph;
      MirrorFacts(c);
      AliasNode(p, n, target);
      AddName(c, target);
      LinkedAlias(g, graph, p, c);
    }

    /** A hardlink: the node becomes another name of the target's inode. */
    method LinkEntry(ghost p: Path, n: FsNode, linkname: Name) returns (ok: bool)
      requires GraphOk() && p in byPath && n == byPath[p] && RealDir(graph.view, p) && Clean(linkname) != p
      requires Clean(linkname) in graph.view ==> !RealDir(graph.view, Clean(linkname))
      modifies this`graph, repr
      ensures ok == Link(old(graph.view), p, Clean(linkname)).Ok?
      ensures ok ==> GraphOk() && graph.view == Link(old(graph.view), p, Clean(linkname)).value
    {
      var found := Find(Clean(linkname));
      ok := found.Ok?;
      if ok {
        var target := CanonicalOf(found.value);
        ghost var c := Canonical(graph.view, Clean(linkname));
        MirrorFacts(c);
        LinkIs(graph.view, p, Clean(linkname), c);
        MakeAlias(p, n, c, target);
      }
    }

    method StreamEntry(ghost p: Path, n: FsNode, data: seq<byte>, size: nat) returns (ok: bool)
      requires Valid() && p in byPath && n == byPath[p]
      modifies this`graph, this`out, this`nextBlk, repr
      ensures ok == Stream(State(old(graph.view), old(out)), p, data, size).Ok?
      ensures ok ==> Valid() && State(graph.view, out) == Stream(State(old(graph.view), old(out)), p, data, size).value
    {
      ghost var g := graph;
      ok := StreamData(p, n, data, size);
      StreamLinked(g, graph, p, data, size, old(out), ok);
    }

    // -------------------------------------------------------------- addEntry

    /** The part of addEntry that depends on the kind of a non-directory entry. */
    method FinishEntry(ghost p: Path, n: FsNode, e: Entry) returns (ok: bool)
      requires Valid() && p == PathOf(e) && p in byPath && n == byPath[p] && e.kind != Dir
      requires e.kind == Hardlink ==> RealDir(graph.view, p) && Clean(e.linkname) != p
      requires e.kind == Hardlink && Clean(e.linkname) in graph.view ==> !RealDir(graph.view, Clean(e.linkname))
      modifies this`graph, this`out, this`nextBlk, repr
      ensures ok == Finish(State(old(graph.view), old(out)), e).Ok?
      ensures ok ==> Valid() && State(graph.view, out) == Finish(State(old(graph.view), old(out)), e).value
    {
      match e.kind {
        case Reg => ok := StreamEntry(p, n, e.data, e.size);
        case Symlink => ok := StreamEntry(p, n, e.linkname, |e.linkname|);
        case Hardlink => ok := LinkEntry(p, n, e.linkname);
        case _ => ok := true;
      }
    }

    /** addEntry after the node was found: describe it, and give it its content. */
    method FillEntry(ghost p: Path, n: FsNode, e: Entry) returns (ok: bool)
      requires Valid() && p == PathOf(e) && p in byPath && n == byPath[p] && Fillable(graph.view, e)
      modifies this`graph, this`out, this`nextBlk, repr
      ensures ok == Fill(State(old(graph.view), old(out)), e).Ok?
      ensures ok ==> Valid() && State(graph.view, out) == Fill(State(old(graph.view), old(out)), e).value
    {
      ghost var g := graph;
      MirrorFacts(p);
      if e.kind == Dir {
        DescribeNode(p, n, e);
        DirLinked(g, graph, e);
        ok := true;
      } else {
        KidsEmpty(g, p);
        ok := n.children == map[];
        if ok {
          DetachNode(p, n, e);
          DetachKeepsTarget(g.view, e);
          ok := FinishEntry(p, n, e);
        }
      }
    }

    /** addEntry on its own: find the entry's node and fill it. */
    method TakeEntry(e: Entry) returns (ok: bool)
      requires Valid()
      requires Create(graph.view, PathOf(e)).Ok? ==> Fillable(Create(graph.view, PathOf(e)).value, e)
      modifies this`byPath, this`graph, this`repr, this`out, this`nextBlk, repr
      ensures forall m :: m in repr ==> m in old(repr) || fresh(m)
      ensures var t := Create(old(graph.view), PathOf(e));
              && ok == (t.Ok? && Fill(State(t.value, old(out)), e).Ok?)
              && (ok ==> Valid() && State(graph.view, out) == Fill(State(t.value, old(out)), e).value)
    {
      var found := Lookup(Clean(e.name));
      ok := found.Ok?;
      if ok {
        ok := FillEntry(PathOf(e), found.value, e);
      }
    }

    /** addEntry: the next entry after the entries es. A failed entry aborts the conversion. */
    method AddEntry(e: Entry, ghost es: seq<Entry>) returns (ok: bool)
      requires Valid() && Built(es, State(graph.view, out)) && EntryWellFormed(es, e)
      modifies this`byPath, this`graph, this`repr, this`out, this`nextBlk, repr
      ensures forall m :: m in repr ==> m in old(repr) || fresh(m)
      ensures ok == TarInvariant.AddEntry(es, State(old(graph.view), old(out)), e).Ok?
      ensures ok ==> Valid()
      ensures ok ==> State(graph.view, out) == TarInvariant.AddEntry(es, State(old(graph.view), old(out)), e).value
    {
      AddEntryIs(es, State(graph.view, out), e);
      ok := TakeEntry(e);
    }

    // -------------------------------------------------------------- walk

    /** The objects are the nodes of these paths. */
    ghost predicate AreNodes(ns: seq<FsNode>, ps: seq<Path>)
      reads this`byPath
    {
      |ns| == |ps| && forall i :: 0 <= i < |ps| ==> ps[i] in byPath && ns[i] == byPath[ps[i]]
    }

    lemma AreNodesMore(ns: seq<FsNode>, ps: seq<Path>, n: FsNode, p: Path)
      requires AreNodes(ns, ps) && p in byPath && n == byPath[p]
      ensures AreNodes(ns + [n], ps + [p])
    {
    }

    /** The children's names, and where each one's node is. */
    lemma ChildNodes(p: Path, n: FsNode)
      requires GraphOk() && p in byPath && n == byPath[p]
      ensures n.children.Keys == ChildNames(graph.view, p)
      ensures forall name :: name in n.children ==>
                var q := p + [name];
                && q in byPath && n.children[name] == byPath[q] && q in graph.view
                && (byPath[q].hardTo == null <==> graph.view[q].hardTo == None)
    {
      MirrorFacts(p);
      ChildrenFacts(graph, p);
      ChildrenAreNames(graph, p);
      forall name | name in n.children
        ensures var q := p + [name];
                && q in byPath && n.children[name] == byPath[q] && q in graph.view
                && (byPath[q].hardTo == null <==> graph.view[q].hardTo == None)
      {
        assert SameAt(p + [name]);
      }
    }

    lemma QueuedNext(queue: seq<FsNode>, before: seq<Path>, after: seq<Path>, child: FsNode, q: Path, alias: bool)
      requires AreNodes(queue, before) && q in byPath && child == byPath[q]
      requires after == before + (if alias then [] else [q])
      ensures AreNodes(if alias then queue else queue + [child], after)
    {
      if alias {
        assert before + [] == before;
      } else {
        AreNodesMore(queue, before, child, q);
      }
    }

    /** The next child is queued unless it is an alias. */
    lemma QueueOne(p: Path, n: FsNode, names: seq<Name>, i: nat, queue: seq<FsNode>, qs: seq<Path>)
      requires GraphOk() && p in byPath && n == byPath[p] && i < |names| && names[i] in n.children
      requires AreNodes(queue, qs + KidPaths(graph.view, p, names[..i]))
      ensures AreNodes(if n.children[names[i]].hardTo == null then queue + [n.children[names[i]]] else queue,
                       qs + KidPaths(graph.view, p, names[..i + 1]))
    {
      ChildNodes(p, n);
      KidPathsNext(graph.view, p, names, i);
      var q, before := p + [names[i]], qs + KidPaths(graph.view, p, names[..i]);
      var after, alias := qs + KidPaths(graph.view, p, names[..i + 1]), n.children[names[i]].hardTo != null;
      assert after == before + (if alias then [] else [q]);
      QueuedNext(queue, before, after, n.children[names[i]], q, alias);
    }

    /** The children of a visited node, sorted by name; aliases are skipped. */
    method QueueChildren(ghost p: Path, n: FsNode, queue: seq<FsNode>, ghost qs: seq<Path>)
      returns (queue': seq<FsNode>, ghost ns: seq<Name>)
      requires GraphOk() && p in byPath && n == byPath[p] && AreNodes(queue, qs)
      ensures IsSortOf(Lt, ChildNames(graph.view, p), ns)
      ensures AreNodes(queue', qs + KidPaths(graph.view, p, ns))
    {
      ChildNodes(p, n);
      LtIsOrder();
      var names := SortKeys(Lt, n.children.Keys);
      ns := names;
      queue' := queue;
      assert qs + [] == qs;
      for i := 0 to |names|
        invariant AreNodes(queue', qs + KidPaths(graph.view, p, names[..i]))
      {
        assert names[i] in Elements(names);
        QueueOne(p, n, names, i, queue', qs);
        var child := n.children[names[i]];
        if child.hardTo == null {
          queue' := queue' + [child];
        }
      }
      assert names[..|names|] == names;
    }

    /** A visited inode queues its children if it is a directory. */
    method Visit(ghost p: Path, n: FsNode, queue: seq<FsNode>, ghost qs: seq<Path>)
      returns (queue': seq<FsNode>, ghost ns: seq<Name>)
      requires GraphOk() && p in byPath && n == byPath[p] && p in Inodes(graph.view) && AreNodes(queue, qs)
      ensures if RealDir(graph.view, p) then IsSortOf(Lt, ChildNames(graph.view, p), ns) else ns == []
      ensures AreNodes(queue', qs + KidPaths(graph.view, p, ns))
    {
      MirrorFacts(p);
      queue', ns := queue, [];
      if n.IsDir() {
        queue', ns := QueueChildren(p, n, queue, qs);
      } else {
        assert qs + [] == qs;
      }
    }

    /** The first of the queue is visited, and its children are queued. */
    method WalkNext(order: seq<FsNode>, queue: seq<FsNode>, ghost v: seq<Path>, ghost q: seq<Path>)
      returns (order': seq<FsNode>, queue': seq<FsNode>, ghost q': seq<Path>)
      requires GraphOk() && Shape(graph.view) && WalkInv(graph.view, v, q) && q != []
      requires AreNodes(order, v) && AreNodes(queue, q)
      ensures WalkInv(graph.view, v + [q[0]], q') && AreNodes(order', v + [q[0]]) && AreNodes(queue', q')
    {
      ghost var p := q[0];
      assert p in v + q;
      order' := order + [queue[0]];
      ghost var ns;
      queue', ns := Visit(p, queue[0], queue[1..], q[1..]);
      WalkSteps(graph.view, v, q, ns);
      q' := q[1..] + KidPaths(graph.view, p, ns);
    }

    /** walk: every inode, root first, then breadth-first by name. */
    method WalkTree() returns (order: seq<FsNode>)
      requires GraphOk() && Shape(graph.view)
      ensures AreNodes(order, WalkOrder(graph.view))
    {
      ghost var t := graph.view;
      var queue := [root];
      order := [];
      ghost var v: seq<Path>, q: seq<Path> := [], [[]];
      WalkStarts(t);
      while queue != []
        invariant WalkInv(t, v, q) && AreNodes(order, v) && AreNodes(queue, q)
        decreases |Inodes(t)| - |v|
      {
        WalkBound(t, v, q);
        ghost var p := q[0];
        order, queue, q := WalkNext(order, queue, v, q);
        v := v + [p];
      }
      WalkEnds(t, v);
    }

    // -------------------------------------------------------------- assignNids

    method NumberNode(ghost p: Path, n: FsNode, nid: nat, ino: nat)
      requires Mirrored() && p in byPath && n == byPath[p]
      modifies this`graph, repr
      ensures Mirrored()
      ensures graph == old(graph).(view := old(graph.view)[p := old(graph.view)[p].(nid := nid, ino := ino)])
    {
      MirrorFacts(p);
      n.SetNumber(nid, ino);
      SyncFields(p, n.Rec());
    }

    /** The i-th inode of the walk gets the next number and slot. */
    method NumberNext(ghost g: Graph, ghost w: seq<Path>, ghost i: nat, n: FsNode, nid: nat)
      requires Mirrored() && WalksNodes(g.view, w) && i < |w| && w[i] in byPath && n == byPath[w[i]]
      requires graph == g.(view := Numbered(g.view, w, i)) && nid == 2 + 2 * i && inoSeq == Uint32(i)
      modifies this`graph, this`inoSeq, repr
      ensures Mirrored() && graph == g.(view := Numbered(g.view, w, i + 1)) && inoSeq == Uint32(i + 1)
    {
      inoSeq := Uint32(inoSeq + 1);
      NumberedStep(g.view, w, i, nid, inoSeq);
      NumberNode(w[i], n, nid, inoSeq);
    }

    /** assignNids: inodes get consecutive numbers and slots in walk order. */
    method AssignNids(order: seq<FsNode>, ghost w: seq<Path>)
      requires Mirrored() && WalksNodes(graph.view, w) && AreNodes(order, w) && inoSeq == 0
      modifies this`graph, this`inoSeq, repr
      ensures Mirrored() && graph == old(graph).(view := Numbered(old(graph.view), w, |w|))
    {
      var next := 2;
      ghost var g := graph;
      for i := 0 to |order|
        invariant Mirrored() && graph == g.(view := Numbered(g.view, w, i))
        invariant next == 2 + 2 * i && inoSeq == Uint32(i)
      {
        NumberNext(g, w, i, order[i], next);
        next := next + 2;
      }
    }

    // -------------------------------------------------------------- directories

    method InsertDirent(s: seq<Dirent>, d: Dirent) returns (r: seq<Dirent>)
      requires SortedNames(s) && forall i :: 0 <= i < |s| ==> s[i].name != d.name
      ensures SortedNames(r) && forall x :: x in r <==> x in s || x == d
    {
      ghost var i;
      r, i := InsertAt((a: Dirent, b: Dirent) => Lt(a.name, b.name), s, d);
      forall j | i <= j < |s| ensures Lt(d.name, s[j].name) {
        LtTotal(s[i].name, d.name);
        if j > i {
          LtTrans(d.name, s[i].name, s[j].name);
        }
      }
      assert s == s[..i] + s[i..];
    }

    method SortDirents(es: seq<Dirent>) returns (s: seq<Dirent>)
      requires DistinctNames(es)
      ensures SortedNames(s) && forall x :: x in s <==> x in es
    {
      s := [];
      for i := 0 to |es|
        invariant SortedNames(s) && forall x :: x in s <==> x in es[..i]
      {
        forall j | 0 <= j < |s| ensures s[j].name != es[i].name {
          assert s[j] in es[..i];
        }
        s := InsertDirent(s, es[i]);
        assert es[..i + 1] == es[..i] + [es[i]];
      }
      assert es[..|es|] == es;
    }

    ghost predicate ListingStage(t: Tree, w: seq<Path>, p: Path, n: FsNode)
      reads this`byPath, this`graph, this`repr, this`root, repr
    {
      && GraphOk() && p in byPath && n == byPath[p] && p in w
      && Shape(t) && w == WalkOrder(t) && t.Keys == graph.view.Keys && Staged(t, w, graph.view)
    }

    lemma StagedNode(t: Tree, w: seq<Path>, q: Path)
      requires Mirrored() && Staged(t, w, graph.view) && q in t && q in byPath
      ensures SameAt(q) && Canonical(graph.view, q) == Canonical(t, q)
      ensures byPath[q].ftype == t[q].ftype && (q in w ==> byPath[q].nid == NidOf(w, q))
    {
      assert StagedAt(t, w, graph.view, q) && SameAt(q);
      assert byPath[q].Rec().ftype == graph.view[q].ftype && byPath[q].Rec().nid == graph.view[q].nid;
    }

    /** The entry for one child: its inode's number and type. */
    method ChildDirent(ghost t: Tree, ghost w: seq<Path>, ghost p: Path, n: FsNode, name: Name) returns (d: Dirent)
      requires ListingStage(t, w, p, n) && name in n.children
      ensures d == EntryFor(t, w, p, name) && name != DOT && name != DOTDOT && name in DirNames(t, p)
    {
      ghost var q := p + [name];
      MirrorFacts(p);
      ChildrenFacts(graph, p);
      ChildName(t, p, name);
      StagedNode(t, w, q);
      CanonicalInWalk(t, q);
      assert IsChild(p, q) && Base(q) == name;
      var c := CanonicalOf(n.children[name]);
      StagedNode(t, w, Canonical(t, q));
      d := Dirent(name, c.nid, c.ftype);
    }

    method DotDirents(ghost t: Tree, ghost w: seq<Path>, ghost p: Path, n: FsNode) returns (es: seq<Dirent>)
      requires ListingStage(t, w, p, n)
      ensures es == [EntryFor(t, w, p, DOT), EntryFor(t, w, p, DOTDOT)]
    {
      ParentFacts(graph, p);
      InWalk(t, ParentOrSelf(p));
      assert RealDir(t, ParentOrSelf(p)) || p == [];
      StagedNode(t, w, p);
      StagedNode(t, w, ParentOrSelf(p));
      var parent := if n.parent == null then n else n.parent;
      es := [Dirent(DOT, n.nid, FT_DIR), Dirent(DOTDOT, parent.nid, FT_DIR)];
    }

    method ListChild(ghost t: Tree, ghost w: seq<Path>, ghost p: Path, n: FsNode, entries: seq<Dirent>,
                     ghost rest: set<Name>, name: Name) returns (r: seq<Dirent>)
      requires ListingStage(t, w, p, n) && name in n.children && name in rest && EntriesBut(t, w, p, entries, rest)
      ensures EntriesBut(t, w, p, r, rest - {name})
    {
      var d := ChildDirent(t, w, p, n, name);
      ListingGrows(t, w, p, entries, d, rest);
      r := entries + [d];
    }

    /** The dirents of a directory: itself, its parent, and its children in whatever order the map yields them. */
    method ListDir(ghost t: Tree, ghost w: seq<Path>, ghost p: Path, n: FsNode) returns (entries: seq<Dirent>)
      requires ListingStage(t, w, p, n)
      ensures EntriesBut(t, w, p, entries, {})
    {
      entries := DotDirents(t, w, p, n);
      DotsNotChildren(t, p);
      DotListing(t, w, p, entries);
      MirrorFacts(p);
      ChildrenAreNames(graph, p);
      SameChildNames(graph.view, t, p);
      var rest := n.children.Keys;
      while rest != {}
        invariant rest <= n.children.Keys && EntriesBut(t, w, p, entries, rest)
        decreases |rest|
      {
        var name :| name in rest;
        entries := ListChild(t, w, p, n, entries, rest, name);
        rest := rest - {name};
      }
    }

    // -------------------------------------------------------------- directory blocks

    /** Write the blocks out, padding all but the last. */
    method WriteBlocks(blocks: seq<seq<byte>>, ghost es: seq<Dirent>) returns (total: nat)
      requires Packable(es) && |blocks| == |Groups(es)|
      requires forall b :: 0 <= b < |blocks| ==> blocks[b] == BlockBytes(Groups(es)[b])
      modifies this`out
      ensures out == old(out) + DirBytes(es) && total == |DirBytes(es)|
    {
      ghost var gs, whole := Groups(es), old(out) + DirBytes(es);
      DirBytesJoin(es);
      total := 0;
      assert gs[0..] == gs;
      for b := 0 to |blocks|
        invariant out + JoinGroups(gs[b..]) == whole && total + |JoinGroups(gs[b..])| == |DirBytes(es)|
      {
        ghost var padding, rest := JoinStep(gs, b);
        Regroup(out, blocks[b], Zeros(padding), rest);
        out := out + blocks[b];
        if b < |blocks| - 1 {
          var pad := 4096 - |blocks[b]|;
          out := out + Zeros(pad);
          total := total + 4096;
        } else {
          total := total + |blocks[b]|;
        }
      }
      assert gs[|gs|..] == [];
    }

    /** Pack, write and pad a directory's sorted entries. */
    method WriteEntries(sorted: seq<Dirent>) returns (ok: bool, total: nat)
      requires Sized(out) && nextBlk == NextBlk(out)
      modifies this`out, this`nextBlk
      ensures ok <==> Packable(sorted)
      ensures ok ==> total == |DirBytes(sorted)| && out == PadTo(old(out) + DirBytes(sorted))
      ensures ok ==> Sized(out) && nextBlk == NextBlk(out)
    {
      ghost var before := out;
      var blocks;
      ok, blocks := PackDir(sorted);
      total := 0;
      if ok {
        total := WriteBlocks(blocks, sorted);
        PadToBlock(before, total);
      }
    }

    method ListSorted(ghost t: Tree, ghost w: seq<Path>, ghost p: Path, n: FsNode) returns (sorted: seq<Dirent>)
      requires ListingStage(t, w, p, n)
      ensures sorted == DirEntries(t, w, p) && Packable(sorted)
    {
      var entries := ListDir(t, w, p, n);
      sorted := SortDirents(entries);
      assert DirNames(t, p) - {} == DirNames(t, p);
      Reordered(t, w, p, entries, sorted);
      ListingUnique(t, w, p, sorted);
      EntriesPack(t, w, p);
    }

    method PlaceEntries(ghost p: Path, n: FsNode, sorted: seq<Dirent>) returns (ok: bool)
      requires Mirrored() && p in byPath && n == byPath[p] && Sized(out) && nextBlk == NextBlk(out) && Packable(sorted)
      modifies this`graph, this`out, this`nextBlk, repr
      ensures ok && Mirrored() && Sized(out) && nextBlk == NextBlk(out)
      ensures out == PadTo(old(out) + DirBytes(sorted))
      ensures graph == old(graph).(view := old(graph.view)[p :=
                old(graph.view)[p].(size := |DirBytes(sorted)|, blkaddr := NextBlk(old(out)))])
    {
      var blkaddr, total := nextBlk, 0;
      ok, total := WriteEntries(sorted);
      if ok {
        PlaceNode(p, n, total, blkaddr);
      }
    }

    /** writeOneDir: collect, sort and pack the entries, then place the directory's data. */
    method WriteOneDir(ghost t: Tree, ghost w: seq<Path>, ghost p: Path, n: FsNode) returns (ok: bool)
      requires ListingStage(t, w, p, n) && Sized(out) && nextBlk == NextBlk(out)
      modifies this`graph, this`out, this`nextBlk, repr
      ensures ok && Mirrored() && Sized(out) && nextBlk == NextBlk(out)
      ensures out == PadTo(old(out) + DirData(t, w, p))
      ensures graph == old(graph).(view := old(graph.view)[p :=
                old(graph.view)[p].(size := |DirData(t, w, p)|, blkaddr := NextBlk(old(out)))])
    {
      var sorted := ListSorted(t, w, p, n);
      ok := PlaceEntries(p, n, sorted);
    }

    /** The directories among the first k inodes of the walk are written. */
    ghost predicate DirStage(t: Tree, w: seq<Path>, k: nat, data: seq<byte>)
      requires IsPlan(t, w) && k <= |w|
      reads this, repr
    {
      Mirrored() && Linked(graph) && [] in byPath && root == byPath[[]]
      && AtStage(t, w, k, data, graph.view, out) && Sized(out) && nextBlk == NextBlk(out)
    }

    lemma StageFacts(t: Tree, w: seq<Path>, k: nat, data: seq<byte>, n: FsNode)
      requires IsPlan(t, w) && k < |w|
      requires DirStage(t, w, k, data) && w[k] in byPath && n == byPath[w[k]]
      ensures Shape(t) && ListingStage(t, w, w[k], n) && (n.IsDir() <==> RealDir(t, w[k]))
    {
      AtStageIs(t, w, k, data, graph.view, out);
      LinkedParts(graph);
      PlanParts(t, w);
      StagesStaged(t, w, k, data);
      InWalk(t, w[k]);
      StagedNode(t, w, w[k]);
    }

    /** The k-th inode of the walk is written if it is a directory. */
    method NextDir(ghost t: Tree, ghost w: seq<Path>, k: nat, ghost data: seq<byte>, order: seq<FsNode>)
      returns (ok: bool)
      requires IsPlan(t, w) && k < |w| && AreNodes(order, w) && DirStage(t, w, k, data)
      modifies this`graph, this`out, this`nextBlk, repr
      ensures ok && DirStage(t, w, k + 1, data)
    {
      ghost var g, before := graph, out;
      var n := order[k];
      StageFacts(t, w, k, data, n);
      ok := true;
      if n.IsDir() {
        ok := WriteOneDir(t, w, w[k], n);
        PlacedLinked(g, graph, w[k], |DirData(t, w, w[k])|, NextBlk(before));
      }
      StageMade(t, w, k, data, g.view, before, graph.view, out);
    }

    /** writeDirBlocks: every directory, in walk order. */
    method WriteDirBlocks(ghost t: Tree, ghost w: seq<Path>, order: seq<FsNode>) returns (ok: bool)
      requires IsPlan(t, w) && AreNodes(order, w) && DirStage(t, w, 0, out)
      modifies this`graph, this`out, this`nextBlk, repr
      ensures ok && DirStage(t, w, |w|, old(out))
    {
      var k: nat := 0;
      ok := true;
      ghost var data := out;
      while ok && k < |order|
        invariant k <= |w| && ok && DirStage(t, w, k, data)
      {
        ok := NextDir(t, w, k, data, order);
        k := k + 1;
      }
    }

    // -------------------------------------------------------------- inodes

    /** One 64-byte inode after the other, through one reused buffer. */
    method WriteInodeTable(order: seq<FsNode>, ghost ns: seq<Node>) returns (inos: nat)
      requires |order| == |ns| && forall k :: 0 <= k < |ns| ==> order[k].Rec() == ns[k]
      modifies this`out
      ensures out == old(out) + InodeTable(ns) && inos == |ns|
    {
      var buf := new byte[64];
      inos := 0;
      ghost var start := out;
      assert start + [] == start;
      for k := 0 to |order|
        invariant out == start + InodeTable(ns[..k]) && inos == k
      {
        ZeroFill(buf);
        PutInode(buf, order[k]);
        InodeTableStep(ns, k, start);
        out := out + buf[..];
        inos := inos + 1;
      }
      assert ns[..|ns|] == ns;
    }

    /** writeInodes: two empty slots, the inodes, padding. */
    method WriteInodes(order: seq<FsNode>, ghost ns: seq<Node>) returns (metaBlk: nat, inos: nat)
      requires |order| == |ns| && forall k :: 0 <= k < |ns| ==> order[k].Rec() == ns[k]
      requires Sized(out) && nextBlk == NextBlk(out)
      modifies this`out, this`nextBlk
      ensures out == MetaOut(old(out), ns) && nextBlk == NextBlk(out)
      ensures metaBlk == NextBlk(old(out)) && inos == |ns|
    {
      ghost var before := out;
      metaBlk := nextBlk;
      out := out + Zeros(64);
      inos := WriteInodeTable(order, ns);
      PadToBlock(before, 64 + 64 * inos);
    }

    /** writeSuperblock: seek back into block 0. */
    method WriteSuperblock(metaBlk: nat, inos: nat)
      requires |out| >= 4096
      modifies this`out
      ensures out == WithSuper(old(out), SuperBytes(root.nid, inos, nextBlk, metaBlk))
    {
      var sb := new byte[128];
      ZeroFill(sb);
      PutSuper(sb, root.nid, inos, nextBlk, metaBlk);
      out := out[..1024] + sb[..] + out[1152..];
    }

    // -------------------------------------------------------------- the three passes

    /** The walk at any stage of writing: always the planned one. */
    method WalkStage(ghost t: Tree, ghost w: seq<Path>, ghost k: nat, ghost data: seq<byte>)
      returns (order: seq<FsNode>)
      requires IsPlan(t, w) && k <= |w| && DirStage(t, w, k, data)
      ensures AreNodes(order, w)
    {
      AtStageIs(t, w, k, data, graph.view, out);
      StagePlan(t, w, k, data);
      PlanParts(graph.view, w);
      LinkedParts(graph);
      order := WalkTree();
    }

    /** First pass: number the inodes. */
    method NumberPass(ghost t: Tree, ghost w: seq<Path>)
      requires Valid() && inoSeq == 0 && IsPlan(t, w) && graph.view == t
      modifies this`graph, this`inoSeq, repr
      ensures DirStage(t, w, 0, out)
    {
      ghost var g := graph;
      PlanParts(t, w);
      var order := WalkTree();
      AssignNids(order, w);
      StageStart(t, w, out);
      AtStageIs(t, w, 0, out, graph.view, out);
      NumberedLinked(g, graph, w);
    }

    /** Second pass: write the directories. */
    method DirPass(ghost t: Tree, ghost w: seq<Path>) returns (ok: bool)
      requires IsPlan(t, w) && DirStage(t, w, 0, out)
      modifies this`graph, this`out, this`nextBlk, repr
      ensures ok && DirStage(t, w, |w|, old(out))
    {
      var order := WalkStage(t, w, 0, out);
      ok := WriteDirBlocks(t, w, order);
    }

    lemma FinalRecords(t: Tree, w: seq<Path>, data: seq<byte>, order: seq<FsNode>) returns (ns: seq<Node>)
      requires IsPlan(t, w) && DirStage(t, w, |w|, data) && AreNodes(order, w)
      ensures Shape(t) && WalksNodes(t, w) && ns == FinalNodes(t, w, data) && |order| == |ns|
      ensures forall k :: 0 <= k < |ns| ==> order[k].Rec() == ns[k]
    {
      AtStageIs(t, w, |w|, data, graph.view, out);
      ns := StageEnd(t, w, data);
      forall k | 0 <= k < |ns| ensures order[k].Rec() == ns[k] {
        assert SameAt(w[k]);
      }
    }

    /** The metadata and the superblock, after the directory data. */
    method WriteMetadata(order: seq<FsNode>, ghost ns: seq<Node>)
      requires |order| == |ns| && forall k :: 0 <= k < |ns| ==> order[k].Rec() == ns[k]
      requires Sized(out) && nextBlk == NextBlk(out) && root.nid == 2
      modifies this`out, this`nextBlk
      ensures out == Image.FinishImage(old(out), ns)
    {
      var metaBlk, inos := WriteInodes(order, ns);
      WriteSuperblock(metaBlk, inos);
    }

    /** Third pass: write the inodes, then the superblock. */
    method InodePass(ghost t: Tree, ghost w: seq<Path>, ghost data: seq<byte>)
      requires IsPlan(t, w) && Shape(t) && Sized(data) && DirStage(t, w, |w|, data)
      modifies this`out, this`nextBlk
      ensures out == ImageOf(State(t, data))
    {
      var order := WalkStage(t, w, |w|, data);
      ghost var ns := FinalRecords(t, w, data, order);
      AtStageIs(t, w, |w|, data, graph.view, out);
      StageImage(t, w, data, ns);
      assert order[0].Rec().nid == ns[0].nid;
      WriteMetadata(order, ns);
    }

    /** Everything after the tar loop. */
    method WriteImage() returns (ok: bool)
      requires Valid() && inoSeq == 0 && Shape(graph.view)
      modifies this, repr
      ensures ok && out == ImageOf(State(old(graph.view), old(out)))
    {
      ghost var t, data := graph.view, out;
      ghost var w := WalkOrder(t);
      WalkNodes(t);
      PlanParts(t, w);
      NumberPass(t, w);
      ok := DirPass(t, w);
      if ok {
        InodePass(t, w, data);
      }
    }

    method WriteImageFor(ghost es: seq<Entry>) returns (ok: bool)
      requires Valid() && inoSeq == 0 && IsBuilt(es, State(graph.view, out))
      modifies this, repr
      ensures ok && IsImage(es, Ok(out))
    {
      IsBuiltMeans(es, State(graph.view, out));
      ImageOutcome(es);
      ok := WriteImage();
      IsImageMeans(es, Ok(out));
    }

    // -------------------------------------------------------------- Convert

    /** The tar loop: entries in order until one fails. */
    method TakeEntries(es: seq<Entry>) returns (ok: bool)
      requires Valid() && State(graph.view, out) == EmptyState() && WellFormed(es)
      modifies this`byPath, this`graph, this`repr, this`out, this`nextBlk, repr
      ensures forall m :: m in repr ==> m in old(repr) || fresh(m)
      ensures !ok ==> IsImage(es, Err)
      ensures ok ==> Valid() && IsBuilt(es, State(graph.view, out))
    {
      ok := true;
      var i := 0;
      ghost var done: seq<Entry> := [];
      while ok && i < |es|
        invariant 0 <= i <= |es| && WellFormed(done) && done == es[..i]
        invariant forall m :: m in repr ==> m in old(repr) || fresh(m)
        invariant ok ==> Valid() && Build(done) == Ok(State(graph.view, out))
        invariant !ok ==> Build(es).Err?
      {
        ghost var init, next := BuildStep(es, i);
        ok := AddEntry(es[i], done);
        i, done := i + 1, next;
      }
      assert es[..|es|] == es;
      IsImageMeans(es, Err);
      IsBuiltMeans(es, State(graph.view, out));
    }

    /** The tar loop and everything after it. */
    method ConvertInto(es: seq<Entry>) returns (ok: bool)
      requires Valid() && State(graph.view, out) == EmptyState() && inoSeq == 0 && WellFormed(es)
      modifies this, repr
      ensures IsImage(es, if ok then Ok(out) else Err)
    {
      ok := TakeEntries(es);
      if ok {
        ok := WriteImageFor(es);
      }
    }
  }

  /** Convert: the image of a tar stream, given as its entries. */
  method Convert(es: seq<Entry>) returns (r: Result<seq<byte>>)
    requires WellFormed(es)
    ensures r == Image.Image(es)
  {
    var w := new Writer();
    var ok := w.ConvertInto(es);
    r := if ok then Ok(w.out) else Err;
    IsImageMeans(es, r);
  }
}
