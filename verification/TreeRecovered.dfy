/**
 The round trip: resolving any path in the image finds exactly the paths of the
 tar stream, and the inode found carries the attributes, content and link count
 the stream declares.
 */
module TreeRecovered {
  import opened Wrappers
  import opened Bytes
  import opened Sorting
  import opened DirFormat
  import opened TarTree
  import opened TarInvariant
  import opened Walk
  import opened Image
  import opened RoundTrip
  import Reader

  /** An accepted stream whose image is addressable by 32-bit block and inode numbers. */
  ghost predicate Converted(es: seq<Entry>, st: State) {
    && WellFormed(es) && Build(es) == Ok(st)
    && Addressable(ImageOf(st)) && |WalkOrder(st.tree)| < 0x1_0000_0000
  }

  /** The finished layers of an image. */
  ghost predicate Layered(st: State, w: seq<Path>, dirs: seq<byte>, ns: seq<Node>, img: seq<byte>) {
    && Shape(st.tree) && Sized(st.out) && w == WalkOrder(st.tree) && WalksNodes(st.tree, w)
    && dirs == DirsOut(st.tree, w, |w|, st.out) && ns == FinalNodes(st.tree, w, st.out)
    && Laid(dirs, ns, img) && st.out <= dirs && |dirs| < |img|
  }

  lemma Layers(es: seq<Entry>, st: State) returns (w: seq<Path>, dirs: seq<byte>, ns: seq<Node>, img: seq<byte>)
    requires Converted(es, st)
    ensures Built(es, st) && Layered(st, w, dirs, ns, img) && img == ImageOf(st) && Addressable(st.out)
  {
    w := WalkOrder(st.tree);
    WalkNodes(st.tree);
    DirsGrow(st.tree, w, 0, |w|, st.out);
    dirs, ns, img := DirsOut(st.tree, w, |w|, st.out), FinalNodes(st.tree, w, st.out), ImageOf(st);
    SuperReadsBack(dirs, ns, img);
  }

  // ---------------------------------------------------------------- every inode fits

  lemma ModeFits(es: seq<Entry>, t: Tree, p: Path)
    requires NodesOk(es, t) && p in t && t[p].hardTo == None
    ensures t[p].mode < 0x1_0000
    ensures t[p].mode / 0x1000 == 4 <==> t[p].ftype == FT_DIR
    ensures t[p].uid < 0x1_0000_0000 && t[p].gid < 0x1_0000_0000 && t[p].rdev < 0x1_0000_0000
  {
    assert NodeOk(es, p, t[p]);
    match IndexOf(es, p)
    case None =>
    case Some(i) => ModeOf(es[i]);
  }

  lemma ModeOf(e: Entry)
    requires e.kind != Hardlink
    ensures var m := e.mode % 4096 + FormatBits(e.kind);
            m < 0x1_0000 && (m / 0x1000 == 4 <==> FileType(e.kind) == FT_DIR) && m % 4096 == e.mode % 4096
  {
  }

  lemma DataFits(es: seq<Entry>, st: State, p: Path)
    requires Built(es, st) && Addressable(st.out) && p in st.tree && st.tree[p].hardTo == None
    ensures st.tree[p].size <= |st.out| && st.tree[p].blkaddr < 0x1_0000_0000
    ensures st.tree[p].size == |Declared(es, p)|
  {
    assert NodeOk(es, p, st.tree[p]);
    if st.tree[p].size > 0 {
      assert Holds(st.out, st.tree[p].blkaddr, Declared(es, p));
    }
  }

  lemma InodeFits(es: seq<Entry>, st: State, w: seq<Path>, dirs: seq<byte>, ns: seq<Node>, img: seq<byte>, k: nat)
    requires Built(es, st) && Addressable(st.out) && Layered(st, w, dirs, ns, img) && k < |w|
    ensures Fits(ns[k])
    ensures Reader.IsDirectory(Decoded(ns[k])) <==> RealDir(st.tree, w[k])
  {
    var p := w[k];
    InWalk(st.tree, p);
    ModeFits(es, st.tree, p);
    DataFits(es, st, p);
    assert LinkOk(st.tree, p);
    if RealDir(st.tree, p) {
      DirLands(st.tree, w, k, st.out);
    }
  }

  /** Every inode fits its record, and only directories look like directories. */
  ghost predicate NodesFit(t: Tree, w: seq<Path>, ns: seq<Node>) {
    && |ns| == |w|
    && forall k :: 0 <= k < |w| ==> Fits(ns[k]) && (Reader.IsDirectory(Decoded(ns[k])) <==> RealDir(t, w[k]))
  }

  lemma AllFit(es: seq<Entry>, st: State, w: seq<Path>, dirs: seq<byte>, ns: seq<Node>, img: seq<byte>)
    requires Built(es, st) && Addressable(st.out) && Layered(st, w, dirs, ns, img)
    ensures NodesFit(st.tree, w, ns)
  {
    forall k | 0 <= k < |w|
      ensures Fits(ns[k]) && (Reader.IsDirectory(Decoded(ns[k])) <==> RealDir(st.tree, w[k]))
    {
      InodeFits(es, st, w, dirs, ns, img, k);
    }
  }

  // ---------------------------------------------------------------- bodies

  lemma BodyAt(dirs: seq<byte>, ns: seq<Node>, img: seq<byte>, n: Node, data: seq<byte>)
    requires Laid(dirs, ns, img) && Holds(dirs, n.blkaddr, data) && n.size == |data| && !IsDevice(n.ftype)
    ensures Reader.Body(img, Decoded(n)) == Some(data)
  {
    DirsKept(dirs, ns, img, 4096 * n.blkaddr, 4096 * n.blkaddr + |data|);
  }

  /** The content of a file or symlink reads back. */
  lemma FileBody(es: seq<Entry>, st: State, w: seq<Path>, dirs: seq<byte>, ns: seq<Node>, img: seq<byte>, k: nat)
    requires Built(es, st) && Addressable(st.out) && Layered(st, w, dirs, ns, img) && k < |w|
    requires !RealDir(st.tree, w[k]) && !IsDevice(st.tree[w[k]].ftype)
    ensures Reader.Body(img, Decoded(ns[k])) == Some(Declared(es, w[k]))
  {
    var p := w[k];
    InWalk(st.tree, p);
    DataFits(es, st, p);
    if st.tree[p].size > 0 {
      HoldsLonger(st.out, dirs, st.tree[p].blkaddr, Declared(es, p));
      BodyAt(dirs, ns, img, ns[k], Declared(es, p));
    }
  }

  lemma HoldsAt(dirs: seq<byte>, o: nat, data: seq<byte>)
    requires o % 4096 == 0 && o >= 4096 && o + |data| <= |dirs| && dirs[o..o + |data|] == data
    ensures Holds(dirs, o / 4096, data)
  {
    assert 4096 * (o / 4096) == o;
  }

  lemma DirAddress(t: Tree, w: seq<Path>, k: nat, out: seq<byte>)
    requires Shape(t) && WalksNodes(t, w) && k < |w| && RealDir(t, w[k])
    ensures FinalNode(t, w, k, out).blkaddr == NextBlk(DirsOut(t, w, k, out))
    ensures FinalNode(t, w, k, out).size == |DirData(t, w, w[k])| && FinalNode(t, w, k, out).ftype == FT_DIR
  {
  }

  lemma DirHolds(t: Tree, w: seq<Path>, k: nat, out: seq<byte>, dirs: seq<byte>, before: seq<byte>, data: seq<byte>)
    requires Shape(t) && Sized(out) && WalksNodes(t, w) && k < |w| && RealDir(t, w[k])
    requires dirs == DirsOut(t, w, |w|, out) && |dirs| < 4096 * 0x1_0000_0000
    requires before == DirsOut(t, w, k, out) && data == DirData(t, w, w[k])
    ensures Holds(dirs, NextBlk(before), data)
  {
    DirLands(t, w, k, out);
    DirsGrow(t, w, 0, k, out);
    NextBlkExact(before);
    HoldsAt(dirs, |before|, data);
  }

  /** The packed dirents of a directory read back. */
  lemma DirBody(st: State, w: seq<Path>, dirs: seq<byte>, ns: seq<Node>, img: seq<byte>, k: nat)
    requires Layered(st, w, dirs, ns, img) && k < |w| && RealDir(st.tree, w[k])
    ensures Reader.Body(img, Decoded(ns[k])) == Some(DirData(st.tree, w, w[k]))
  {
    var data := DirData(st.tree, w, w[k]);
    DirHolds(st.tree, w, k, st.out, dirs, DirsOut(st.tree, w, k, st.out), data);
    DirAddress(st.tree, w, k, st.out);
    BodyAt(dirs, ns, img, ns[k], data);
  }

  // ---------------------------------------------------------------- names

  lemma ScanEntry(t: Tree, w: seq<Path>, p: Path, n: Name)
    ensures Scan(DirEntries(t, w, p), n) == if n in DirNames(t, p) then Some(EntryFor(t, w, p, n)) else None
  {
    var es := DirEntries(t, w, p);
    if n in DirNames(t, p) {
      var i :| 0 <= i < |es| && es[i].name == n;
      ScanFinds(es, n, i);
      EntryIs(t, w, p, i);
    } else {
      ScanMisses(es, n);
    }
  }

  lemma EntryIs(t: Tree, w: seq<Path>, p: Path, i: nat)
    requires i < |DirEntries(t, w, p)|
    ensures DirEntries(t, w, p)[i] == EntryFor(t, w, p, DirEntries(t, w, p)[i].name)
  {
    LtIsOrder();
  }

  lemma NidSmall(w: seq<Path>, p: Path)
    requires |w| < 0x1_0000_0000
    ensures NidOf(w, p) % Pow256(8) == NidOf(w, p)
  {
    Widths();
  }

  lemma EntryNidSmall(t: Tree, w: seq<Path>, p: Path, n: Name)
    requires |w| < 0x1_0000_0000
    ensures EntryFor(t, w, p, n).nid % Pow256(8) == EntryFor(t, w, p, n).nid
  {
    NidSmall(w, p);
    NidSmall(w, ParentOrSelf(p));
    Widths();
    if p + [n] in t {
      NidSmall(w, Canonical(t, p + [n]));
    }
  }

  lemma LookupInDir(img: seq<byte>, sb: Reader.Super, nid: nat, n: Reader.Inode, data: seq<byte>, name: Name)
    requires Reader.ReadInode(img, sb, nid) == Some(n) && Reader.IsDirectory(n) && Reader.Body(img, n) == Some(data)
    ensures Reader.LookupIn(img, sb, nid, name) == LookupDir(data, name)
  {
  }

  lemma LookupEntry(t: Tree, w: seq<Path>, p: Path, n: Name)
    requires Shape(t) && |w| < 0x1_0000_0000
    ensures LookupDir(DirData(t, w, p), n)
            == if n in DirNames(t, p) then Some(Found(EntryFor(t, w, p, n).nid, EntryFor(t, w, p, n).ftype)) else None
  {
    EntriesPack(t, w, p);
    LookupDirOk(DirEntries(t, w, p), n);
    ScanEntry(t, w, p, n);
    EntryNidSmall(t, w, p, n);
  }

  /** What a reader of directory p should find under the name n. */
  ghost function StepOf(t: Tree, w: seq<Path>, p: Path, n: Name): Option<Found> {
    if RealDir(t, p) && n in DirNames(t, p) then
      Some(Found(EntryFor(t, w, p, n).nid, EntryFor(t, w, p, n).ftype))
    else
      None
  }

  lemma StepFromSlot(st: State, w: seq<Path>, dirs: seq<byte>, ns: seq<Node>, img: seq<byte>, k: nat, nid: nat, n: Name)
    requires Layered(st, w, dirs, ns, img) && NodesFit(st.tree, w, ns) && k < |w| && nid == 2 + 2 * k
    ensures Reader.LookupIn(img, SuperOf(dirs, ns), nid, n) == StepOf(st.tree, w, w[k], n)
  {
    InodeReadsBack(dirs, ns, img, k);
    if RealDir(st.tree, w[k]) {
      DirBody(st, w, dirs, ns, img, k);
      LookupInDir(img, SuperOf(dirs, ns), nid, Decoded(ns[k]), DirData(st.tree, w, w[k]), n);
      LookupEntry(st.tree, w, w[k], n);
    }
  }

  /** One step of the reader's walk from the inode of p: the directory's names and no others. */
  lemma StepFrom(st: State, w: seq<Path>, dirs: seq<byte>, ns: seq<Node>, img: seq<byte>, p: Path, n: Name)
    requires Layered(st, w, dirs, ns, img) && NodesFit(st.tree, w, ns) && p in w
    ensures Reader.LookupIn(img, SuperOf(dirs, ns), NidOf(w, p), n) == StepOf(st.tree, w, p, n)
  {
    StepFromSlot(st, w, dirs, ns, img, Position(w, p), NidOf(w, p), n);
  }

  // ---------------------------------------------------------------- resolving paths

  /** A path without "." and ".." components. */
  predicate NoDots(p: Path) {
    forall i :: 0 <= i < |p| ==> p[i] != DOT && p[i] != DOTDOT
  }

  /** The image answers every lookup from every inode as the tree would. */
  ghost predicate Served(t: Tree, w: seq<Path>, img: seq<byte>, sb: Reader.Super) {
    forall p: Path, n: Name :: p in w ==> Reader.LookupIn(img, sb, NidOf(w, p), n) == StepOf(t, w, p, n)
  }

  lemma AllServed(st: State, w: seq<Path>, dirs: seq<byte>, ns: seq<Node>, img: seq<byte>)
    requires Layered(st, w, dirs, ns, img) && NodesFit(st.tree, w, ns)
    ensures Served(st.tree, w, img, SuperOf(dirs, ns))
  {
    forall p: Path, n: Name | p in w
      ensures Reader.LookupIn(img, SuperOf(dirs, ns), NidOf(w, p), n) == StepOf(st.tree, w, p, n)
    {
      StepFrom(st, w, dirs, ns, img, p, n);
    }
  }

  /** From the node of a path, one more component leads to the node of the longer path. */
  lemma StepToChild(t: Tree, w: seq<Path>, par: Path, n: Name)
    requires Shape(t) && w == WalkOrder(t) && par in t && n != DOT && n != DOTDOT
    ensures par + [n] in t ==> Canonical(t, par + [n]) in t
    ensures StepOf(t, w, Canonical(t, par), n)
            == if par + [n] in t
               then Some(Found(NidOf(w, Canonical(t, par + [n])), t[Canonical(t, par + [n])].ftype)) else None
  {
    CanonicalInWalk(t, par);
    ChildName(t, par, n);
    var p := par + [n];
    assert Parent(p) == par;
    if p in t {
      assert RealDir(t, Parent(p));
      CanonicalInWalk(t, p);
    }
  }

  /** The reader's path walk ends at the inode of the path's node, or nowhere if there is none. */
  lemma {:induction false} ResolveInTree(t: Tree, w: seq<Path>, img: seq<byte>, sb: Reader.Super, p: Path)
    requires Shape(t) && w == WalkOrder(t) && Served(t, w, img, sb) && NoDots(p)
    ensures Reader.Resolve(img, sb, 2, p) == if p in t then Some(NidOf(w, Canonical(t, p))) else None
    decreases |p|
  {
    if p == [] {
      RootFirst(t);
      PositionIs(t, 0);
    } else {
      var par, n := Parent(p), Base(p);
      assert p == par + [n];
      ResolveInTree(t, w, img, sb, par);
      if par in t {
        CanonicalInWalk(t, par);
        StepToChild(t, w, par, n);
      } else {
        assert !RealDir(t, Parent(p));
      }
    }
  }

  // ---------------------------------------------------------------- what the stream declares

  /** Every path the stream implies. */
  ghost function PathSet(es: seq<Entry>): set<Path> {
    {[]} + set i, k | 0 <= i < |es| && 0 <= k <= |PathOf(es[i])| :: PathOf(es[i])[..k]
  }

  lemma PathSetExists(es: seq<Entry>, p: Path)
    ensures p in PathSet(es) <==> Exists(es, p)
  {
    if p in PathSet(es) && p != [] {
      var i, k :| 0 <= i < |es| && 0 <= k <= |PathOf(es[i])| && p == PathOf(es[i])[..k];
      assert Prefix(p, PathOf(es[i]));
    }
    if Exists(es, p) && p != [] {
      var i :| 0 <= i < |es| && Prefix(p, PathOf(es[i]));
      assert p == PathOf(es[i])[..|p|];
    }
  }

  predicate DeclaredDirectory(es: seq<Entry>, p: Path) {
    match IndexOf(es, p)
    case None => true
    case Some(i) => es[i].kind == Dir
  }

  /** A directory's links: "." and its own name, and ".." of each subdirectory. Otherwise: the names of the inode. */
  ghost function DeclaredLinks(es: seq<Entry>, p: Path): nat {
    if DeclaredDirectory(es, p) then 2 + |DeclaredSubDirs(es, p)| else |DeclaredNames(es, p)|
  }

  ghost function DeclaredSubDirs(es: seq<Entry>, p: Path): set<Path> {
    set q | q in PathSet(es) && IsChild(p, q) && DeclaredDirectory(es, q)
  }

  ghost function DeclaredNames(es: seq<Entry>, p: Path): set<Path> {
    set q | q in PathSet(es) && Origin(es, q) == p
  }

  /** The format's number for each kind of entry. */
  predicate TypeFor(k: Kind, ftype: nat) {
    match ftype
    case 1 => k == Reg
    case 2 => k == Dir
    case 3 => k == CharDev
    case 4 => k == BlockDev
    case 5 => k == Fifo
    case 7 => k == Symlink
    case _ => false
  }

  lemma OrThree(low: nat, mid: nat, high: nat)
    requires low < 0x100 && mid < 0x1000
    ensures Or(Or(low, mid * 0x100), high * 0x10_0000) == low + mid * 0x100 + high * 0x10_0000
  {
    Pow2Is();
    OrApart(low, mid, 8);
    OrApart(low + mid * 0x100, high, 20);
  }

  lemma PiecesDecode(low: nat, mid: nat, high: nat)
    requires low < 0x100 && mid < 0x1000 && high < 0x1000
    ensures Reader.DecodeMajor(low + mid * 0x100 + high * 0x10_0000) == mid
    ensures Reader.DecodeMinor(low + mid * 0x100 + high * 0x10_0000) == high * 0x100 + low
  {
    var dev := low + mid * 0x100 + high * 0x10_0000;
    assert dev / 0x100 == mid + high * 0x1000;
    assert dev / 0x10_0000 == high;
  }

  /** Within 12 and 20 bits the three pieces of a device number do not overlap. */
  lemma DevicePieces(major: nat, low: nat, high: nat)
    requires major < 0x1000 && low < 0x100 && high < 0x1000
    ensures MkDev(major, high * 0x100 + low) == low + major * 0x100 + high * 0x10_0000
  {
    var minor := high * 0x100 + low;
    assert minor % 0x100 == low;
    assert (minor - low) * 0x1000 == high * 0x10_0000;
    OrThree(low, major, high);
  }

  lemma DevicesFit(dev: nat)
    ensures 0 <= Reader.DecodeMajor(dev) < 0x1000 && 0 <= Reader.DecodeMinor(dev) < 0x10_0000
  {
  }

  /** Device numbers come back from the inode exactly within Linux's 12-bit major and 20-bit minor. */
  lemma DeviceDecodes(major: int, minor: int)
    ensures Reader.DecodeMajor(MkDev(major, minor)) == major && Reader.DecodeMinor(MkDev(major, minor)) == minor
       <==> 0 <= major < 0x1000 && 0 <= minor < 0x10_0000
  {
    DevicesFit(MkDev(major, minor));
    if 0 <= major < 0x1000 && 0 <= minor < 0x10_0000 {
      var low, high := minor % 0x100, minor / 0x100;
      DevicePieces(major, low, high);
      PiecesDecode(low, major, high);
    }
  }

  /** The inode read for the origin p of some path matches its entry, or is an implied parent directory. */
  ghost predicate Matches(es: seq<Entry>, p: Path, img: seq<byte>, n: Reader.Inode) {
    && n.nlink == DeclaredLinks(es, p) % 0x1_0000_0000
    && match IndexOf(es, p)
       case None => n.mode == 0x41ED && n.uid == 0 && n.gid == 0 && n.mtime == 0
       case Some(i) =>
         var e := es[i];
         && TypeFor(e.kind, Reader.TypeOf(n)) && n.mode < 0x1_0000 && n.mode % 4096 == e.mode % 4096
         && n.uid == e.uid % 0x1_0000_0000 && n.gid == e.gid % 0x1_0000_0000 && n.mtime == e.mtime
         && (e.kind == Reg ==> Reader.Body(img, n) == Some(if e.size == 0 then [] else e.data))
         && (e.kind == Symlink ==> Reader.Body(img, n) == Some(e.linkname))
         && (e.kind == CharDev || e.kind == BlockDev ==>
               (Reader.DecodeMajor(n.u) == e.major && Reader.DecodeMinor(n.u) == e.minor
                <==> 0 <= e.major < 0x1000 && 0 <= e.minor < 0x10_0000))
  }

  lemma DirsDeclared(es: seq<Entry>, t: Tree, p: Path)
    requires NodesOk(es, t) && p in t
    ensures RealDir(t, p) <==> DeclaredDirectory(es, p)
  {
    assert NodeOk(es, p, t[p]);
  }

  lemma OriginIs(es: seq<Entry>, t: Tree, p: Path)
    requires NodesOk(es, t) && p in t
    ensures Canonical(t, p) == Origin(es, p)
  {
    assert NodeOk(es, p, t[p]);
  }

  lemma SubDirsDeclared(es: seq<Entry>, t: Tree, p: Path)
    requires NodesOk(es, t) && KeysOk(es, t)
    ensures SubDirs(t, p) == DeclaredSubDirs(es, p)
  {
    forall q ensures q in t <==> q in PathSet(es) {
      PathSetExists(es, q);
    }
    forall q | q in t ensures RealDir(t, q) <==> DeclaredDirectory(es, q) {
      DirsDeclared(es, t, q);
    }
  }

  lemma NamesDeclared(es: seq<Entry>, t: Tree, p: Path)
    requires NodesOk(es, t) && KeysOk(es, t)
    ensures NamesOf(t, p) == DeclaredNames(es, p)
  {
    forall q ensures q in t <==> q in PathSet(es) {
      PathSetExists(es, q);
    }
    forall q | q in t ensures Canonical(t, q) == Origin(es, q) {
      OriginIs(es, t, q);
    }
  }

  lemma LinksDeclared(es: seq<Entry>, t: Tree, p: Path)
    requires NodesOk(es, t) && KeysOk(es, t) && p in t && t[p].hardTo == None && LinkOk(t, p)
    ensures t[p].nlink == Uint32(DeclaredLinks(es, p))
  {
    DirsDeclared(es, t, p);
    if RealDir(t, p) {
      SubDirsDeclared(es, t, p);
    } else {
      NamesDeclared(es, t, p);
    }
  }

  /** n is m up to numbering and placement. */
  predicate SameMeta(m: Node, n: Node) {
    && n.nlink == m.nlink && n.mode == m.mode && n.uid == m.uid && n.gid == m.gid
    && n.mtime == m.mtime && n.rdev == m.rdev && n.ftype == m.ftype
  }

  lemma FinalMeta(t: Tree, w: seq<Path>, k: nat, out: seq<byte>)
    requires Shape(t) && WalksNodes(t, w) && k < |w|
    ensures SameMeta(t[w[k]], FinalNode(t, w, k, out)) && FinalNode(t, w, k, out).ino == Uint32(k + 1)
  {
  }

  lemma InodeMeta(es: seq<Entry>, st: State, p: Path)
    requires Built(es, st) && p in WalkOrder(st.tree)
    ensures p in st.tree && NodeOk(es, p, st.tree[p]) && st.tree[p].hardTo == None
    ensures st.tree[p].nlink == Uint32(DeclaredLinks(es, p))
    ensures var i := IndexOf(es, p);
            i.Some? && (es[i.value].kind == Reg || es[i.value].kind == Symlink) ==>
              !RealDir(st.tree, p) && !IsDevice(st.tree[p].ftype)
  {
    InWalk(st.tree, p);
    assert LinkOk(st.tree, p);
    LinksDeclared(es, st.tree, p);
  }

  lemma InodeMatches(es: seq<Entry>, st: State, w: seq<Path>, dirs: seq<byte>, ns: seq<Node>, img: seq<byte>, k: nat)
    requires Built(es, st) && Addressable(st.out) && Layered(st, w, dirs, ns, img) && k < |w|
    ensures Matches(es, w[k], img, Decoded(ns[k]))
  {
    InodeMeta(es, st, w[k]);
    FinalMeta(st.tree, w, k, st.out);
    var i := IndexOf(es, w[k]);
    if i.Some? && (es[i.value].kind == Reg || es[i.value].kind == Symlink) {
      FileBody(es, st, w, dirs, ns, img, k);
    }
    FieldsMatch(es, w[k], st.tree[w[k]], ns[k], img);
  }

  /** The node's fields are what the inode shows. */
  lemma FieldsMatch(es: seq<Entry>, p: Path, m: Node, n: Node, img: seq<byte>)
    requires NodeOk(es, p, m) && m.hardTo == None && m.nlink == Uint32(DeclaredLinks(es, p)) && SameMeta(m, n)
    requires var i := IndexOf(es, p);
             i.Some? && (es[i.value].kind == Reg || es[i.value].kind == Symlink) ==>
               Reader.Body(img, Decoded(n)) == Some(Content(es[i.value]))
    ensures Matches(es, p, img, Decoded(n))
  {
    var i := IndexOf(es, p);
    if i.Some? {
      FormatType(es[i.value]);
      KindsRead(es[i.value], Decoded(n));
      DeviceDecodes(es[i.value].major, es[i.value].minor);
    }
  }

  lemma KindsRead(e: Entry, n: Reader.Inode)
    requires e.kind != Hardlink && n.mode == e.mode % 4096 + FormatBits(e.kind)
    ensures TypeFor(e.kind, Reader.TypeOf(n)) && n.mode < 0x1_0000 && n.mode % 4096 == e.mode % 4096
  {
  }

  // ---------------------------------------------------------------- the theorem

  /**
   Every path without dots resolves exactly when the stream implies it, to an inode that matches the
   path's origin. Two paths share an inode exactly when they have the same origin.
   */
  lemma ReaderGetsTreeBack(es: seq<Entry>, st: State, p: Path, q: Path) returns (sb: Reader.Super)
    requires Converted(es, st) && NoDots(p) && NoDots(q)
    ensures Reader.ReadSuper(ImageOf(st)) == Some(sb)
    ensures Reader.Resolve(ImageOf(st), sb, sb.rootNid, p).Some? <==> Exists(es, p)
    ensures Exists(es, p) ==>
              var nid := Reader.Resolve(ImageOf(st), sb, sb.rootNid, p).value;
              var n := Reader.ReadInode(ImageOf(st), sb, nid);
              n.Some? && Matches(es, Origin(es, p), ImageOf(st), n.value)
    ensures Exists(es, p) && Exists(es, q) ==>
              (Reader.Resolve(ImageOf(st), sb, sb.rootNid, p) == Reader.Resolve(ImageOf(st), sb, sb.rootNid, q)
               <==> Origin(es, p) == Origin(es, q))
  {
    var t := st.tree;
    var w, dirs, ns, img := Layers(es, st);
    sb := SuperOf(dirs, ns);
    SuperReadsBack(dirs, ns, img);
    AllFit(es, st, w, dirs, ns, img);
    AllServed(st, w, dirs, ns, img);
    ResolveInTree(t, w, img, sb, p);
    ResolveInTree(t, w, img, sb, q);
    if p in t {
      OriginIs(es, t, p);
      CanonicalInWalk(t, p);
      var k := Position(w, Origin(es, p));
      InodeReadsBack(dirs, ns, img, k);
      InodeMatches(es, st, w, dirs, ns, img, k);
      if q in t {
        OriginIs(es, t, q);
        CanonicalInWalk(t, q);
        NidInjective(t, Origin(es, p), Origin(es, q));
      }
    }
  }

  /** What a well-formed stream lists under a spelled name. */
  lemma SpelledIs(es: seq<Entry>, i: nat, p: Path)
    requires WellFormed(es) && i < |es| && PlainPath(p) && Spells(es[i].name, p)
    ensures NoDots(p) && PathOf(es[i]) == p && IndexOf(es, p) == Some(i) && Exists(es, p)
    ensures es[i].kind != Hardlink ==> Origin(es, p) == p
  {
    CleanSpelled(es[i].name, p);
    IndexUnique(es, i);
    assert Prefix(p, PathOf(es[i]));
  }

  /** An entry is found at the path its name spells, and what is found there is its own. */
  lemma FoundByName(es: seq<Entry>, st: State, i: nat, p: Path) returns (sb: Reader.Super, n: Reader.Inode)
    requires Converted(es, st) && i < |es| && PlainPath(p) && Spells(es[i].name, p) && es[i].kind != Hardlink
    ensures Reader.ReadSuper(ImageOf(st)) == Some(sb)
    ensures Reader.Resolve(ImageOf(st), sb, sb.rootNid, p).Some?
    ensures Reader.ReadInode(ImageOf(st), sb, Reader.Resolve(ImageOf(st), sb, sb.rootNid, p).value) == Some(n)
    ensures IndexOf(es, p) == Some(i) && Matches(es, p, ImageOf(st), n)
  {
    SpelledIs(es, i, p);
    sb := ReaderGetsTreeBack(es, st, p, p);
    n := Reader.ReadInode(ImageOf(st), sb, Reader.Resolve(ImageOf(st), sb, sb.rootNid, p).value).value;
  }

  /** What was listed before stays the origin it was. */
  lemma EarlierOrigin(es: seq<Entry>, i: nat, q: Path)
    requires WellFormed(es) && i <= |es| && Listed(es[..i], q)
    ensures Origin(es, q) == Origin(es[..i], q)
  {
    var j :| 0 <= j < i && PathOf(es[..i][j]) == q;
    WellFormedPrefix(es, i);
    IndexUnique(es, j);
    IndexUnique(es[..i], j);
    assert es[..i][..j] == es[..j];
  }

  lemma LinkOrigin(es: seq<Entry>, i: nat, p: Path, q: Path)
    requires WellFormed(es) && AllAccepted(es) && i < |es| && es[i].kind == Hardlink
    requires PlainPath(p) && Spells(es[i].name, p) && PlainPath(q) && Spells(es[i].linkname, q)
    ensures NoDots(q) && Exists(es, q) && Origin(es, p) == Origin(es, q)
  {
    SpelledIs(es, i, p);
    CleanSpelled(es[i].linkname, q);
    assert Accepts(es[..i], es[i]);
    EarlierOrigin(es, i, q);
    var j :| 0 <= j < i && PathOf(es[..i][j]) == q;
    assert Prefix(q, PathOf(es[j]));
  }

  /** A hardlink is found where the path its link name spells is. */
  lemma FoundAsTarget(es: seq<Entry>, st: State, i: nat, p: Path, q: Path) returns (sb: Reader.Super)
    requires Converted(es, st) && i < |es| && es[i].kind == Hardlink
    requires PlainPath(p) && Spells(es[i].name, p) && PlainPath(q) && Spells(es[i].linkname, q)
    ensures Reader.ReadSuper(ImageOf(st)) == Some(sb)
    ensures Reader.Resolve(ImageOf(st), sb, sb.rootNid, p).Some?
    ensures Reader.Resolve(ImageOf(st), sb, sb.rootNid, p) == Reader.Resolve(ImageOf(st), sb, sb.rootNid, q)
  {
    BuildOk(es);
    SpelledIs(es, i, p);
    LinkOrigin(es, i, p, q);
    sb := ReaderGetsTreeBack(es, st, p, q);
  }

  lemma FormatType(e: Entry)
    requires e.kind != Hardlink
    ensures Reader.TypeOf(Reader.Inode(e.mode % 4096 + FormatBits(e.kind), 0, 0, 0, 0, 0, 0, 0)) == FileType(e.kind)
  {
  }

  lemma NodeType(es: seq<Entry>, t: Tree, p: Path, n: Reader.Inode)
    requires NodesOk(es, t) && p in t && t[p].hardTo == None && n.mode == t[p].mode
    ensures Reader.TypeOf(n) == t[p].ftype
  {
    assert NodeOk(es, p, t[p]);
    TypeFromMode(es, p, t[p], n);
  }

  lemma TypeFromMode(es: seq<Entry>, p: Path, m: Node, n: Reader.Inode)
    requires NodeOk(es, p, m) && m.hardTo == None && n.mode == m.mode
    ensures Reader.TypeOf(n) == m.ftype
  {
    match IndexOf(es, p)
    case None =>
    case Some(i) => FormatType(es[i]);
  }

  /** Whatever a directory lists leads to an inode of the walk, of the type listed. */
  lemma StepType(t: Tree, w: seq<Path>, p: Path, n: Name) returns (q: Path)
    requires Shape(t) && w == WalkOrder(t) && p in w && StepOf(t, w, p, n).Some?
    ensures q in w && q in t && t[q].hardTo == None
    ensures StepOf(t, w, p, n).value == Found(NidOf(w, q), t[q].ftype)
  {
    InWalk(t, p);
    ChildName(t, p, n);
    if n == DOT {
      q := p;
    } else if n == DOTDOT {
      q := ParentOrSelf(p);
      assert RealDir(t, q);
    } else {
      CanonicalInWalk(t, p + [n]);
      q := Canonical(t, p + [n]);
    }
    InWalk(t, q);
  }

  /** Every entry a reader finds in a directory points at an inode that is there and has the entry's type. */
  lemma EntryTypes(es: seq<Entry>, st: State, p: Path, n: Name) returns (sb: Reader.Super)
    requires Converted(es, st) && NoDots(p)
    ensures Reader.ReadSuper(ImageOf(st)) == Some(sb)
    ensures var dir := Reader.Resolve(ImageOf(st), sb, sb.rootNid, p);
            dir.Some? && Reader.LookupIn(ImageOf(st), sb, dir.value, n).Some? ==>
              var f := Reader.LookupIn(ImageOf(st), sb, dir.value, n).value;
              var m := Reader.ReadInode(ImageOf(st), sb, f.nid);
              m.Some? && f.ftype == Reader.TypeOf(m.value)
  {
    var t := st.tree;
    var w, dirs, ns, img := Layers(es, st);
    sb := SuperOf(dirs, ns);
    SuperReadsBack(dirs, ns, img);
    AllFit(es, st, w, dirs, ns, img);
    AllServed(st, w, dirs, ns, img);
    ResolveInTree(t, w, img, sb, p);
    if p in t {
      CanonicalInWalk(t, p);
      if StepOf(t, w, Canonical(t, p), n).Some? {
        var q := StepType(t, w, Canonical(t, p), n);
        InodeType(es, st, w, dirs, ns, img, q);
      }
    }
  }

  lemma ModeKept(st: State, w: seq<Path>, dirs: seq<byte>, ns: seq<Node>, img: seq<byte>, k: nat)
    requires Layered(st, w, dirs, ns, img) && k < |w|
    ensures w[k] in st.tree && ns[k].mode == st.tree[w[k]].mode
  {
    FinalMeta(st.tree, w, k, st.out);
  }

  lemma SlotReads(st: State, w: seq<Path>, dirs: seq<byte>, ns: seq<Node>, img: seq<byte>, k: nat)
    requires Layered(st, w, dirs, ns, img) && NodesFit(st.tree, w, ns) && k < |w|
    ensures Reader.ReadInode(img, SuperOf(dirs, ns), 2 + 2 * k) == Some(Decoded(ns[k]))
  {
    InodeReadsBack(dirs, ns, img, k);
  }

  lemma SlotMode(st: State, w: seq<Path>, dirs: seq<byte>, ns: seq<Node>, img: seq<byte>, k: nat, nid: nat)
    returns (m: Reader.Inode)
    requires Layered(st, w, dirs, ns, img) && NodesFit(st.tree, w, ns) && k < |w| && nid == 2 + 2 * k
    ensures Reader.ReadInode(img, SuperOf(dirs, ns), nid) == Some(m)
    ensures w[k] in st.tree && m.mode == st.tree[w[k]].mode
  {
    SlotReads(st, w, dirs, ns, img, k);
    ModeKept(st, w, dirs, ns, img, k);
    m := Decoded(ns[k]);
  }

  lemma InodeType(es: seq<Entry>, st: State, w: seq<Path>, dirs: seq<byte>, ns: seq<Node>, img: seq<byte>, q: Path)
    requires NodesOk(es, st.tree) && Layered(st, w, dirs, ns, img) && NodesFit(st.tree, w, ns)
    requires q in w && q in st.tree && st.tree[q].hardTo == None
    ensures var m := Reader.ReadInode(img, SuperOf(dirs, ns), NidOf(w, q));
            m.Some? && Reader.TypeOf(m.value) == st.tree[q].ftype
  {
    var m := SlotMode(st, w, dirs, ns, img, Position(w, q), NidOf(w, q));
    NodeType(es, st.tree, q, m);
  }

  lemma Serves(es: seq<Entry>, st: State) returns (w: seq<Path>, sb: Reader.Super)
    requires Converted(es, st)
    ensures Reader.ReadSuper(ImageOf(st)) == Some(sb) && sb.rootNid == 2
    ensures Built(es, st) && w == WalkOrder(st.tree) && Served(st.tree, w, ImageOf(st), sb)
  {
    var w', dirs, ns, img := Layers(es, st);
    w, sb := w', SuperOf(dirs, ns);
    SuperReadsBack(dirs, ns, img);
    AllFit(es, st, w, dirs, ns, img);
    AllServed(st, w, dirs, ns, img);
  }

  lemma DotsInTree(t: Tree, w: seq<Path>, img: seq<byte>, sb: Reader.Super, p: Path)
    requires Shape(t) && w == WalkOrder(t) && Served(t, w, img, sb) && NoDots(p) && RealDir(t, p)
    ensures Reader.Resolve(img, sb, 2, p + [DOT]) == Reader.Resolve(img, sb, 2, p)
    ensures Reader.Resolve(img, sb, 2, p + [DOTDOT]) == Reader.Resolve(img, sb, 2, ParentOrSelf(p))
  {
    ResolveInTree(t, w, img, sb, p);
    CanonicalInWalk(t, p);
    assert RealDir(t, ParentOrSelf(p));
    ResolveInTree(t, w, img, sb, ParentOrSelf(p));
    CanonicalInWalk(t, ParentOrSelf(p));
    assert (p + [DOT])[..|p|] == p && (p + [DOTDOT])[..|p|] == p;
    assert Reader.LookupIn(img, sb, NidOf(w, p), DOT) == StepOf(t, w, p, DOT);
    assert Reader.LookupIn(img, sb, NidOf(w, p), DOTDOT) == StepOf(t, w, p, DOTDOT);
  }

  /** "." leads back to a directory and ".." to its parent; the root is its own parent. */
  lemma DotEntries(es: seq<Entry>, st: State, p: Path) returns (sb: Reader.Super)
    requires Converted(es, st) && NoDots(p) && Exists(es, p) && DeclaredDirectory(es, p)
    ensures Reader.ReadSuper(ImageOf(st)) == Some(sb)
    ensures Reader.Resolve(ImageOf(st), sb, sb.rootNid, p + [[46]]) == Reader.Resolve(ImageOf(st), sb, sb.rootNid, p)
    ensures Reader.Resolve(ImageOf(st), sb, sb.rootNid, p + [[46, 46]])
            == Reader.Resolve(ImageOf(st), sb, sb.rootNid, if p == [] then [] else p[..|p| - 1])
  {
    var w, sb' := Serves(es, st);
    sb := sb';
    DirsDeclared(es, st.tree, p);
    DotsInTree(st.tree, w, ImageOf(st), sb, p);
  }

  // ---------------------------------------------------------------- layout safety

  lemma DirExtent(t: Tree, w: seq<Path>, k: nat, out: seq<byte>)
    requires Shape(t) && Sized(out) && WalksNodes(t, w) && k < |w| && RealDir(t, w[k])
    requires |DirsOut(t, w, |w|, out)| < 4096 * 0x1_0000_0000
    ensures var n := FinalNode(t, w, k, out);
            && n.blkaddr == |DirsOut(t, w, k, out)| / 4096
            && n.blkaddr + Blocks(n.size) == |DirsOut(t, w, k + 1, out)| / 4096
  {
    DirsGrow(t, w, 0, k, out);
    DirsGrow(t, w, k, |w|, out);
    NextBlkExact(DirsOut(t, w, k, out));
    DirAddress(t, w, k, out);
    PaddedBlocks(DirsOut(t, w, k, out), DirData(t, w, w[k]));
  }

  lemma PaddedBlocks(out: seq<byte>, data: seq<byte>)
    requires Sized(out)
    ensures |PadTo(out + data)| / 4096 == |out| / 4096 + Blocks(|data|)
  {
  }

  /** Where an inode's data may lie: files and symlinks before every directory, all before the meta area. */
  lemma FileExtent(es: seq<Entry>, st: State, w: seq<Path>, dirs: seq<byte>, ns: seq<Node>, img: seq<byte>, k: nat)
    requires Built(es, st) && Addressable(st.out) && Layered(st, w, dirs, ns, img) && k < |w|
    requires !RealDir(st.tree, w[k]) && ns[k].size > 0
    ensures 1 <= ns[k].blkaddr && ns[k].blkaddr + Blocks(ns[k].size) <= |st.out| / 4096
    ensures w[k] in st.tree && ns[k].size == st.tree[w[k]].size && ns[k].blkaddr == st.tree[w[k]].blkaddr
  {
    InWalk(st.tree, w[k]);
    DataFits(es, st, w[k]);
    assert Holds(st.out, ns[k].blkaddr, Declared(es, w[k]));
  }

  /** The block the k-th directory of the walk would start at. */
  ghost function DirStart(st: State, w: seq<Path>, k: nat): nat
    requires Shape(st.tree) && k <= |w|
  {
    |DirsOut(st.tree, w, k, st.out)| / 4096
  }

  lemma StartsGrow(st: State, w: seq<Path>, j: nat, k: nat)
    requires Shape(st.tree) && Sized(st.out) && j <= k <= |w|
    ensures DirStart(st, w, j) <= DirStart(st, w, k)
  {
    DirsGrow(st.tree, w, j, k, st.out);
  }

  lemma DirSpan(st: State, w: seq<Path>, dirs: seq<byte>, ns: seq<Node>, img: seq<byte>, k: nat)
    requires Layered(st, w, dirs, ns, img) && k < |w| && RealDir(st.tree, w[k])
    ensures ns[k].blkaddr == DirStart(st, w, k) && ns[k].blkaddr + Blocks(ns[k].size) == DirStart(st, w, k + 1)
  {
    DirExtent(st.tree, w, k, st.out);
  }

  lemma DirStartEnds(st: State, w: seq<Path>, dirs: seq<byte>, ns: seq<Node>, img: seq<byte>)
    requires Layered(st, w, dirs, ns, img)
    ensures DirStart(st, w, 0) == |st.out| / 4096 && DirStart(st, w, |w|) == |dirs| / 4096 && 1 <= |st.out| / 4096
  {
  }

  lemma ExtentInside(es: seq<Entry>, st: State, w: seq<Path>, dirs: seq<byte>, ns: seq<Node>, img: seq<byte>, k: nat)
    requires Built(es, st) && Addressable(st.out) && Layered(st, w, dirs, ns, img) && k < |w| && ns[k].size > 0
    ensures 1 <= ns[k].blkaddr && ns[k].blkaddr + Blocks(ns[k].size) <= |dirs| / 4096
  {
    DirStartEnds(st, w, dirs, ns, img);
    if RealDir(st.tree, w[k]) {
      DirSpan(st, w, dirs, ns, img, k);
      StartsGrow(st, w, 0, k);
      StartsGrow(st, w, k + 1, |w|);
    } else {
      FileExtent(es, st, w, dirs, ns, img, k);
      StartsGrow(st, w, 0, |w|);
    }
  }

  lemma ExtentsOrdered(es: seq<Entry>, st: State, w: seq<Path>, dirs: seq<byte>, ns: seq<Node>, img: seq<byte>,
                       j: nat, k: nat)
    requires Built(es, st) && Addressable(st.out) && Layered(st, w, dirs, ns, img) && j < |w| && k < |w| && j != k
    requires ns[j].size > 0 && ns[k].size > 0
    ensures Apart(ns[j], ns[k])
  {
    if RealDir(st.tree, w[j]) && RealDir(st.tree, w[k]) {
      DirsOrdered(st, w, dirs, ns, img, if j < k then j else k, if j < k then k else j);
    } else if RealDir(st.tree, w[j]) {
      DirAfterFile(es, st, w, dirs, ns, img, k, j);
    } else if RealDir(st.tree, w[k]) {
      DirAfterFile(es, st, w, dirs, ns, img, j, k);
    } else {
      FileExtent(es, st, w, dirs, ns, img, j);
      FileExtent(es, st, w, dirs, ns, img, k);
      WalkDistinct(st.tree);
      assert Apart(st.tree[w[j]], st.tree[w[k]]);
    }
  }

  lemma DirsOrdered(st: State, w: seq<Path>, dirs: seq<byte>, ns: seq<Node>, img: seq<byte>, j: nat, k: nat)
    requires Layered(st, w, dirs, ns, img) && j < k < |w| && RealDir(st.tree, w[j]) && RealDir(st.tree, w[k])
    ensures ns[j].blkaddr + Blocks(ns[j].size) <= ns[k].blkaddr
  {
    DirSpan(st, w, dirs, ns, img, j);
    DirSpan(st, w, dirs, ns, img, k);
    StartsGrow(st, w, j + 1, k);
  }

  lemma DirAfterFile(es: seq<Entry>, st: State, w: seq<Path>, dirs: seq<byte>, ns: seq<Node>, img: seq<byte>,
                     j: nat, k: nat)
    requires Built(es, st) && Addressable(st.out) && Layered(st, w, dirs, ns, img) && j < |w| && k < |w|
    requires !RealDir(st.tree, w[j]) && RealDir(st.tree, w[k]) && ns[j].size > 0
    ensures ns[j].blkaddr + Blocks(ns[j].size) <= ns[k].blkaddr
  {
    FileExtent(es, st, w, dirs, ns, img, j);
    DirStartEnds(st, w, dirs, ns, img);
    DirSpan(st, w, dirs, ns, img, k);
    StartsGrow(st, w, 0, k);
  }

  /** The data of distinct inodes never overlaps and lies between the superblock's block and the meta area. */
  lemma LayoutSafe(es: seq<Entry>, st: State, j: nat, k: nat)
    requires Converted(es, st) && j < |WalkOrder(st.tree)| && k < |WalkOrder(st.tree)|
    ensures Shape(st.tree) && Sized(st.out) && WalksNodes(st.tree, WalkOrder(st.tree))
    ensures var w := WalkOrder(st.tree);
            var m, n := FinalNode(st.tree, w, j, st.out), FinalNode(st.tree, w, k, st.out);
            var sb := Reader.ReadSuper(ImageOf(st));
            && sb.Some?
            && (m.size > 0 ==> 1 <= m.blkaddr && m.blkaddr + Blocks(m.size) <= sb.value.metaBlk)
            && (j != k && m.size > 0 && n.size > 0 ==> Apart(m, n))
  {
    var w, dirs, ns, img := Layers(es, st);
    SuperReadsBack(dirs, ns, img);
    if ns[j].size > 0 {
      ExtentInside(es, st, w, dirs, ns, img, j);
      if j != k && ns[k].size > 0 {
        ExtentsOrdered(es, st, w, dirs, ns, img, j, k);
      }
    }
  }
}
