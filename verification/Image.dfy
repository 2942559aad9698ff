/**
 The bytes of the finished image as a function of the entry list: file data, then
 directory blocks, then the inode table, then the superblock written into block 0.
 */
module Image {
  import opened Wrappers
  import opened Hiding
  import opened Bytes
  import opened Sorting
  import opened DirFormat
  import opened TarTree
  import opened TarInvariant
  import opened Walk

  // ---------------------------------------------------------------- numbering

  ghost function Position(w: seq<Path>, p: Path): (i: nat)
    requires p in w
    ensures i < |w| && w[i] == p
  {
    var i: nat :| i < |w| && w[i] == p; i
  }

  /** Inodes are 64 bytes, two 32-byte slots, and slot 0 stays unused. */
  ghost function NidOf(w: seq<Path>, p: Path): nat {
    if p in w then 2 + 2 * Position(w, p) else 0
  }

  lemma PositionIs(t: Tree, k: nat)
    requires k < |WalkOrder(t)|
    ensures NidOf(WalkOrder(t), WalkOrder(t)[k]) == 2 + 2 * k
  {
    var w := WalkOrder(t);
    BeforeIsOrder();
    SortedDistinct(Before, w, Position(w, w[k]), k);
  }

  lemma NidInjective(t: Tree, p: Path, q: Path)
    requires p in WalkOrder(t) && q in WalkOrder(t)
    ensures NidOf(WalkOrder(t), p) == NidOf(WalkOrder(t), q) <==> p == q
  {
  }

  // ---------------------------------------------------------------- directory data

  ghost function DirNames(t: Tree, p: Path): set<Name> {
    {DOT, DOTDOT} + ChildNames(t, p)
  }

  function ParentOrSelf(p: Path): Path {
    if p == [] then p else Parent(p)
  }

  ghost function EntryFor(t: Tree, w: seq<Path>, p: Path, n: Name): Dirent {
    if n == DOT then
      Dirent(n, NidOf(w, p), FT_DIR)
    else if n == DOTDOT then
      Dirent(n, NidOf(w, ParentOrSelf(p)), FT_DIR)
    else if p + [n] in t && Canonical(t, p + [n]) in t then
      Dirent(n, NidOf(w, Canonical(t, p + [n])), t[Canonical(t, p + [n])].ftype)
    else
      Dirent(n, 0, 0)
  }

  ghost function Listing(t: Tree, w: seq<Path>, p: Path, ns: seq<Name>): (es: seq<Dirent>)
    ensures |es| == |ns| && forall i :: 0 <= i < |ns| ==> es[i] == EntryFor(t, w, p, ns[i]) && es[i].name == ns[i]
  {
    seq(|ns|, i requires 0 <= i < |ns| => EntryFor(t, w, p, ns[i]))
  }

  ghost function DirEntries(t: Tree, w: seq<Path>, p: Path): (es: seq<Dirent>)
    ensures SortedNames(es) && forall n :: n in DirNames(t, p) <==> exists i :: 0 <= i < |es| && es[i].name == n
  {
    LtIsOrder();
    var ns := SortSet(Lt, DirNames(t, p));
    forall n ensures n in DirNames(t, p) <==> n in ns {
      assert n in ns <==> n in Elements(ns);
    }
    Listing(t, w, p, ns)
  }

  lemma NamesFit(t: Tree, p: Path, n: Name)
    requires Shape(t) && n in DirNames(t, p)
    ensures |n| <= 255 && 0 !in n
  {
    if n in ChildNames(t, p) {
      var q :| q in t && IsChild(p, q) && Base(q) == n;
      assert PlainComponent(Base(q));
    }
  }

  /** The source's "does not fit a block" error cannot happen: names are at most 255 bytes. */
  lemma EntriesPack(t: Tree, w: seq<Path>, p: Path)
    requires Shape(t)
    ensures Packable(DirEntries(t, w, p)) && CleanNames(DirEntries(t, w, p))
  {
    var es := DirEntries(t, w, p);
    forall i | 0 <= i < |es| ensures |es[i].name| <= 255 && 0 !in es[i].name {
      NamesFit(t, p, es[i].name);
    }
  }

  ghost function DirData(t: Tree, w: seq<Path>, p: Path): seq<byte>
    requires Shape(t)
  {
    EntriesPack(t, w, p);
    DirBytes(DirEntries(t, w, p))
  }

  /** The output after the directories among the first k inodes of the walk were written. */
  ghost function DirsOut(t: Tree, w: seq<Path>, k: nat, out: seq<byte>): seq<byte>
    requires Shape(t) && k <= |w|
  {
    if k == 0 then
      out
    else
      var prev := DirsOut(t, w, k - 1, out);
      if RealDir(t, w[k - 1]) then PadTo(prev + DirData(t, w, w[k - 1])) else prev
  }

  // ---------------------------------------------------------------- inodes

  ghost predicate WalksNodes(t: Tree, w: seq<Path>) {
    forall i :: 0 <= i < |w| ==> w[i] in t
  }

  /** The inode of w[k] once numbered and, for a directory, placed. */
  ghost function FinalNode(t: Tree, w: seq<Path>, k: nat, out: seq<byte>): Node
    requires Shape(t) && k < |w| && w[k] in t
  {
    var n := t[w[k]].(nid := 2 + 2 * k, ino := Uint32(k + 1));
    if RealDir(t, w[k]) then
      n.(blkaddr := NextBlk(DirsOut(t, w, k, out)), size := |DirData(t, w, w[k])|)
    else
      n
  }

  /** The tree after the first k inodes were numbered. */
  ghost function Numbered(t: Tree, w: seq<Path>, k: nat): (r: Tree)
    requires WalksNodes(t, w) && k <= |w|
    ensures r.Keys == t.Keys
  {
    if k == 0 then
      t
    else
      var prev := Numbered(t, w, k - 1);
      prev[w[k - 1] := prev[w[k - 1]].(nid := 2 * k, ino := Uint32(k))]
  }

  lemma NumberedStep(t: Tree, w: seq<Path>, k: nat, nid: nat, ino: nat)
    requires WalksNodes(t, w) && k < |w| && nid == 2 + 2 * k && ino == Uint32(Uint32(k) + 1)
    ensures w[k] in Numbered(t, w, k)
    ensures Numbered(t, w, k + 1) == Numbered(t, w, k)[w[k] := Numbered(t, w, k)[w[k]].(nid := nid, ino := ino)]
    ensures ino == Uint32(k + 1)
  {
    ModInc(k);
  }

  /** The numbered tree after the directories among the first k inodes were placed. */
  ghost function DirsPlaced(t: Tree, w: seq<Path>, k: nat, out: seq<byte>): (r: Tree)
    requires Shape(t) && WalksNodes(t, w) && k <= |w|
    ensures r.Keys == t.Keys
  {
    if k == 0 then
      Numbered(t, w, |w|)
    else
      var prev, p := DirsPlaced(t, w, k - 1, out), w[k - 1];
      if RealDir(t, p) then
        prev[p := prev[p].(size := |DirData(t, w, p)|, blkaddr := NextBlk(DirsOut(t, w, k - 1, out)))]
      else
        prev
  }

  ghost predicate DistinctPaths(w: seq<Path>) {
    forall i, j :: 0 <= i < j < |w| ==> w[i] != w[j]
  }

  lemma WalkDistinct(t: Tree)
    ensures DistinctPaths(WalkOrder(t))
  {
    var w := WalkOrder(t);
    forall i, j | 0 <= i < j < |w| ensures w[i] != w[j] {
      PositionIs(t, i);
      PositionIs(t, j);
    }
  }

  lemma {:induction false} NumberedAt(t: Tree, w: seq<Path>, k: nat, p: Path)
    requires WalksNodes(t, w) && DistinctPaths(w) && k <= |w| && p in t
    ensures forall j :: 0 <= j < k && w[j] == p ==>
              Numbered(t, w, k)[p] == t[p].(nid := 2 + 2 * j, ino := Uint32(j + 1))
    ensures (forall j :: 0 <= j < k ==> w[j] != p) ==> Numbered(t, w, k)[p] == t[p]
  {
    if k > 0 {
      NumberedAt(t, w, k - 1, p);
    }
  }

  lemma {:induction false} PlacedAt(t: Tree, w: seq<Path>, k: nat, j: nat, out: seq<byte>)
    requires Shape(t) && WalksNodes(t, w) && DistinctPaths(w) && k <= |w| && j < |w|
    ensures DirsPlaced(t, w, k, out)[w[j]]
            == if j < k then FinalNode(t, w, j, out) else t[w[j]].(nid := 2 + 2 * j, ino := Uint32(j + 1))
  {
    if k == 0 {
      NumberedAt(t, w, |w|, w[j]);
    } else {
      PlacedAt(t, w, k - 1, j, out);
      PlacedStep(t, w, k, out, j);
    }
  }

  lemma PlacedElsewhere(t: Tree, w: seq<Path>, k: nat, out: seq<byte>, p: Path)
    requires Shape(t) && WalksNodes(t, w) && 0 < k <= |w| && p in t && p != w[k - 1]
    ensures DirsPlaced(t, w, k, out)[p] == DirsPlaced(t, w, k - 1, out)[p]
  {
  }

  lemma PlacedHere(t: Tree, w: seq<Path>, j: nat, out: seq<byte>, n: Node)
    requires Shape(t) && WalksNodes(t, w) && j < |w| && w[j] in t
    requires DirsPlaced(t, w, j, out)[w[j]] == n && n == t[w[j]].(nid := 2 + 2 * j, ino := Uint32(j + 1))
    ensures DirsPlaced(t, w, j + 1, out)[w[j]] == FinalNode(t, w, j, out)
  {
  }

  lemma PlacedStep(t: Tree, w: seq<Path>, k: nat, out: seq<byte>, j: nat)
    requires Shape(t) && WalksNodes(t, w) && DistinctPaths(w) && 0 < k <= |w| && j < |w|
    requires DirsPlaced(t, w, k - 1, out)[w[j]]
             == if j < k - 1 then FinalNode(t, w, j, out) else t[w[j]].(nid := 2 + 2 * j, ino := Uint32(j + 1))
    ensures DirsPlaced(t, w, k, out)[w[j]]
            == if j < k then FinalNode(t, w, j, out) else t[w[j]].(nid := 2 + 2 * j, ino := Uint32(j + 1))
  {
    if j == k - 1 {
      PlacedHere(t, w, j, out, t[w[j]].(nid := 2 + 2 * j, ino := Uint32(j + 1)));
    } else {
      PlacedElsewhere(t, w, k, out, w[j]);
    }
  }

  ghost predicate StagedAt(t: Tree, w: seq<Path>, v: Tree, p: Path) {
    p in t && p in v && v[p].hardTo == t[p].hardTo && v[p].ftype == t[p].ftype && (p in w ==> v[p].nid == NidOf(w, p))
  }

  /** What writing directories relies on: numbers are final, kinds and aliases are the tar tree's. */
  ghost predicate Staged(t: Tree, w: seq<Path>, v: Tree) {
    forall p {:trigger StagedAt(t, w, v, p)} :: p in t ==> StagedAt(t, w, v, p)
  }

  lemma NumberedStaged(t: Tree, w: seq<Path>)
    requires w == WalkOrder(t) && WalksNodes(t, w)
    ensures Staged(t, w, Numbered(t, w, |w|))
  {
    WalkDistinct(t);
    forall p | p in t ensures StagedAt(t, w, Numbered(t, w, |w|), p) {
      NumberedAt(t, w, |w|, p);
      if p in w {
        assert w[Position(w, p)] == p;
      }
    }
  }

  lemma {:induction false} StagesStaged(t: Tree, w: seq<Path>, k: nat, out: seq<byte>)
    requires Shape(t) && w == WalkOrder(t) && WalksNodes(t, w) && k <= |w|
    ensures Staged(t, w, DirsPlaced(t, w, k, out))
  {
    if k == 0 {
      NumberedStaged(t, w);
    } else {
      StagesStaged(t, w, k - 1, out);
      forall p | p in t ensures StagedAt(t, w, DirsPlaced(t, w, k, out), p) {
        assert StagedAt(t, w, DirsPlaced(t, w, k - 1, out), p);
      }
    }
  }

  ghost predicate PlanHas(t: Tree, w: seq<Path>, seal: Seal) {
    Shape(t) && w == WalkOrder(t) && WalksNodes(t, w)
  }

  /** A proper tree and its walk; opened by PlanParts. */
  ghost predicate IsPlan(t: Tree, w: seq<Path>) {
    forall seal :: PlanHas(t, w, seal)
  }

  lemma PlanParts(t: Tree, w: seq<Path>)
    ensures IsPlan(t, w) <==> Shape(t) && w == WalkOrder(t) && WalksNodes(t, w)
  {
    assert PlanHas(t, w, Seal) == (Shape(t) && w == WalkOrder(t) && WalksNodes(t, w));
  }

  /** Tree and output after the directories among the first k inodes were written. */
  ghost function Stage(t: Tree, w: seq<Path>, k: nat, out: seq<byte>): State
    requires IsPlan(t, w) && k <= |w|
  {
    PlanParts(t, w);
    State(DirsPlaced(t, w, k, out), DirsOut(t, w, k, out))
  }

  lemma StageNext(t: Tree, w: seq<Path>, k: nat, out: seq<byte>)
    requires IsPlan(t, w) && k < |w|
    ensures Shape(t) && w[k] in Stage(t, w, k, out).tree
    ensures var prev, p := Stage(t, w, k, out), w[k];
            Stage(t, w, k + 1, out) ==
              if RealDir(t, p) then
                State(prev.tree[p := prev.tree[p].(size := |DirData(t, w, p)|, blkaddr := NextBlk(prev.out))],
                      PadTo(prev.out + DirData(t, w, p)))
              else prev
  {
    PlanParts(t, w);
  }

  ghost predicate StageUnder(seal: Seal, t: Tree, w: seq<Path>, k: nat, data: seq<byte>, v: Tree, out: seq<byte>) {
    IsPlan(t, w) && k <= |w| && State(v, out) == Stage(t, w, k, data)
  }

  /** v and out are what stage k made of t and data; opened by AtStageIs. */
  ghost predicate AtStage(t: Tree, w: seq<Path>, k: nat, data: seq<byte>, v: Tree, out: seq<byte>) {
    forall seal: Seal :: StageUnder(seal, t, w, k, data, v, out)
  }

  lemma AtStageIs(t: Tree, w: seq<Path>, k: nat, data: seq<byte>, v: Tree, out: seq<byte>)
    requires IsPlan(t, w) && k <= |w|
    ensures AtStage(t, w, k, data, v, out) <==> State(v, out) == Stage(t, w, k, data)
  {
    assert StageUnder(Seal, t, w, k, data, v, out) == (State(v, out) == Stage(t, w, k, data));
  }

  /** A tree and an output that changed like this are at the next stage. */
  lemma StageMade(t: Tree, w: seq<Path>, k: nat, data: seq<byte>, v: Tree, out: seq<byte>, v': Tree, out': seq<byte>)
    requires IsPlan(t, w) && Shape(t) && k < |w| && AtStage(t, w, k, data, v, out)
    requires if RealDir(t, w[k]) then
               && w[k] in v && out' == PadTo(out + DirData(t, w, w[k]))
               && v' == v[w[k] := v[w[k]].(size := |DirData(t, w, w[k])|, blkaddr := NextBlk(out))]
             else
               v' == v && out' == out
    ensures AtStage(t, w, k + 1, data, v', out')
  {
    AtStageIs(t, w, k, data, v, out);
    StageNext(t, w, k, data);
    AtStageIs(t, w, k + 1, data, v', out');
  }

  /** Every pass sees the tree it planned for: the same walk, whatever was numbered or placed meanwhile. */
  lemma StagedPlan(t: Tree, w: seq<Path>, v: Tree)
    requires IsPlan(t, w) && Staged(t, w, v) && v.Keys == t.Keys
    ensures IsPlan(v, w)
  {
    PlanParts(t, w);
    PlanParts(v, w);
    forall p | p in t ensures v[p].hardTo == t[p].hardTo && v[p].ftype == t[p].ftype {
      assert StagedAt(t, w, v, p);
    }
    assert forall p :: p in t ==> (RealDir(v, p) <==> RealDir(t, p));
    assert Inodes(v) == Inodes(t);
  }

  lemma StagePlan(t: Tree, w: seq<Path>, k: nat, out: seq<byte>)
    requires IsPlan(t, w) && k <= |w|
    ensures IsPlan(Stage(t, w, k, out).tree, w)
  {
    PlanParts(t, w);
    StagesStaged(t, w, k, out);
    StagedPlan(t, w, DirsPlaced(t, w, k, out));
  }

  /** Numbering is where placing starts. */
  lemma StageStart(t: Tree, w: seq<Path>, out: seq<byte>)
    requires IsPlan(t, w)
    ensures WalksNodes(t, w) && Stage(t, w, 0, out) == State(Numbered(t, w, |w|), out)
  {
    PlanParts(t, w);
  }

  function Uint64(n: int): nat {
    n % 0x1_0000_0000_0000_0000
  }

  predicate IsDevice(ftype: byte) {
    ftype == FT_CHARDEV || ftype == FT_BLKDEV
  }

  /** The union holds the device number of a device and the first block of anything else. */
  function InodeUnion(n: Node): nat {
    if IsDevice(n.ftype) then n.rdev else n.blkaddr
  }

  function InodeHead(n: Node): (s: seq<byte>)
    ensures |s| == 24
  {
    EncodeLE(1, 2) + Zeros(2) + EncodeLE(n.mode, 2) + Zeros(2) + EncodeLE(n.size, 8)
    + EncodeLE(InodeUnion(n), 4) + EncodeLE(n.ino, 4)
  }

  function InodeTail(n: Node): (s: seq<byte>)
    ensures |s| == 40
  {
    EncodeLE(n.uid, 4) + EncodeLE(n.gid, 4) + EncodeLE(Uint64(n.mtime), 8)
    + Zeros(4) + EncodeLE(n.nlink, 4) + Zeros(16)
  }

  function InodeBytes(n: Node): (s: seq<byte>)
    ensures |s| == 64
  {
    InodeHead(n) + InodeTail(n)
  }

  ghost function FinalNodes(t: Tree, w: seq<Path>, out: seq<byte>): (ns: seq<Node>)
    requires Shape(t) && WalksNodes(t, w)
    ensures |ns| == |w| && forall k :: 0 <= k < |w| ==> ns[k] == FinalNode(t, w, k, out)
  {
    seq(|w|, k requires 0 <= k < |w| => FinalNode(t, w, k, out))
  }

  /** Once every directory is placed, the tree holds the final inodes. */
  lemma StageEnd(t: Tree, w: seq<Path>, out: seq<byte>) returns (ns: seq<Node>)
    requires IsPlan(t, w)
    ensures Shape(t) && WalksNodes(t, w) && ns == FinalNodes(t, w, out) && |ns| == |w|
    ensures forall k :: 0 <= k < |w| ==> w[k] in Stage(t, w, |w|, out).tree && Stage(t, w, |w|, out).tree[w[k]] == ns[k]
  {
    PlanParts(t, w);
    WalkDistinct(t);
    ns := FinalNodes(t, w, out);
    forall k | 0 <= k < |w| ensures w[k] in t && DirsPlaced(t, w, |w|, out)[w[k]] == ns[k] {
      PlacedAt(t, w, |w|, k, out);
    }
  }

  function InodeTable(ns: seq<Node>): (s: seq<byte>)
    ensures |s| == 64 * |ns|
  {
    if ns == [] then [] else InodeTable(ns[..|ns| - 1]) + InodeBytes(ns[|ns| - 1])
  }

  lemma InodeTableStep(ns: seq<Node>, k: nat, pre: seq<byte>)
    requires k < |ns|
    ensures pre + InodeTable(ns[..k + 1]) == pre + InodeTable(ns[..k]) + InodeBytes(ns[k])
  {
    assert ns[..k + 1][..k] == ns[..k];
  }

  /** Two empty slots, then the inodes, padded to a block. */
  function MetaOut(dirs: seq<byte>, ns: seq<Node>): seq<byte> {
    PadTo(dirs + Zeros(64) + InodeTable(ns))
  }

  // ---------------------------------------------------------------- superblock

  const MAGIC: nat := 0xE0F5E1E2

  // "kube-on-macos---"
  const UUID: seq<byte> := [107, 117, 98, 101, 45, 111, 110, 45, 109, 97, 99, 111, 115, 45, 45, 45]
  // "pod-image"
  const LABEL: seq<byte> := [112, 111, 100, 45, 105, 109, 97, 103, 101]

  function SuperHead(rootNid: nat, inos: nat): (s: seq<byte>)
    ensures |s| == 24
  {
    EncodeLE(MAGIC, 4) + Zeros(8) + [12, 0] + EncodeLE(rootNid, 2) + EncodeLE(inos, 8)
  }

  function SuperTail(blocks: nat, metaBlk: nat): (s: seq<byte>)
    ensures |s| == 104
  {
    Zeros(12) + EncodeLE(blocks, 4) + EncodeLE(metaBlk, 4) + Zeros(4) + UUID + LABEL + Zeros(55)
  }

  function SuperBytes(rootNid: nat, inos: nat, blocks: nat, metaBlk: nat): (s: seq<byte>)
    ensures |s| == 128
  {
    SuperHead(rootNid, inos) + SuperTail(blocks, metaBlk)
  }

  /** Seek to 1024 and write the superblock. */
  function WithSuper(out: seq<byte>, sb: seq<byte>): seq<byte>
    requires |out| >= 4096 && |sb| == 128
  {
    out[..1024] + sb + out[1152..]
  }

  ghost function ImageOf(st: State): seq<byte>
    requires Shape(st.tree) && Sized(st.out)
  {
    var w := WalkOrder(st.tree);
    WalkNodes(st.tree);
    var dirs := DirsOut(st.tree, w, |w|, st.out);
    DirsGrow(st.tree, w, 0, |w|, st.out);
    FinishImage(dirs, FinalNodes(st.tree, w, st.out))
  }

  function FinishImage(dirs: seq<byte>, ns: seq<Node>): seq<byte>
    requires Sized(dirs)
  {
    var out := MetaOut(dirs, ns);
    WithSuper(out, SuperBytes(2, |ns|, NextBlk(out), NextBlk(dirs)))
  }

  lemma StageImage(t: Tree, w: seq<Path>, out: seq<byte>, ns: seq<Node>)
    requires IsPlan(t, w) && Shape(t) && WalksNodes(t, w) && Sized(out) && ns == FinalNodes(t, w, out)
    ensures Sized(Stage(t, w, |w|, out).out) && ImageOf(State(t, out)) == FinishImage(Stage(t, w, |w|, out).out, ns)
    ensures w != [] && w[0] == []
  {
    PlanParts(t, w);
    DirsGrow(t, w, 0, |w|, out);
    RootFirst(t);
  }

  lemma WalkNodes(t: Tree)
    ensures WalksNodes(t, WalkOrder(t))
  {
    var w := WalkOrder(t);
    forall i | 0 <= i < |w| ensures w[i] in t {
      InWalk(t, w[i]);
    }
  }

  lemma PrefixTrans(a: seq<byte>, b: seq<byte>, c: seq<byte>)
    requires a <= b && b <= c
    ensures a <= c
  {
  }

  lemma DirsStep(t: Tree, w: seq<Path>, k: nat, out: seq<byte>)
    requires Shape(t) && 0 < k <= |w| && Sized(DirsOut(t, w, k - 1, out))
    ensures DirsOut(t, w, k - 1, out) <= DirsOut(t, w, k, out) && Sized(DirsOut(t, w, k, out))
  {
    var prev := DirsOut(t, w, k - 1, out);
    if RealDir(t, w[k - 1]) {
      var data := DirData(t, w, w[k - 1]);
      PrefixTrans(prev, prev + data, PadTo(prev + data));
    }
  }

  /** Writing directories only appends, whole blocks at a time. */
  lemma {:induction false} DirsGrow(t: Tree, w: seq<Path>, j: nat, k: nat, out: seq<byte>)
    requires Shape(t) && j <= k <= |w| && Sized(out)
    ensures DirsOut(t, w, j, out) <= DirsOut(t, w, k, out) && Sized(DirsOut(t, w, k, out))
    decreases k
  {
    if k > 0 {
      DirsGrow(t, w, if j < k then j else k - 1, k - 1, out);
      DirsStep(t, w, k, out);
      if j < k {
        PrefixTrans(DirsOut(t, w, j, out), DirsOut(t, w, k - 1, out), DirsOut(t, w, k, out));
      }
    }
  }

  /** The image Convert writes for a stream, or the failure of one of its entries. */
  ghost function Image(es: seq<Entry>): Result<seq<byte>>
    requires WellFormed(es)
  {
    match Build(es)
    case Err => Err
    case Ok(st) => Ok(ImageOf(st))
  }

  /** An image is written exactly when every entry is accepted. */
  lemma ImageOutcome(es: seq<Entry>)
    requires WellFormed(es)
    ensures Image(es).Ok? <==> AllAccepted(es)
    ensures Image(es).Ok? <==> Build(es).Ok?
    ensures Build(es).Ok? ==> Shape(Build(es).value.tree) && Sized(Build(es).value.out)
    ensures Build(es).Ok? ==> Image(es) == Ok(ImageOf(Build(es).value))
  {
    BuildOk(es);
  }

  ghost predicate ImageUnder(seal: Seal, es: seq<Entry>, r: Result<seq<byte>>) {
    WellFormed(es) && r == Image(es)
  }

  /** r is what converting es comes to; opened by IsImageMeans. */
  ghost predicate IsImage(es: seq<Entry>, r: Result<seq<byte>>) {
    forall seal :: ImageUnder(seal, es, r)
  }

  lemma IsImageMeans(es: seq<Entry>, r: Result<seq<byte>>)
    ensures IsImage(es, r) <==> WellFormed(es) && r == Image(es)
  {
    assert ImageUnder(Seal, es, r) == (WellFormed(es) && r == Image(es));
  }

  ghost predicate BuildUnder(seal: Seal, es: seq<Entry>, st: State) {
    WellFormed(es) && Build(es) == Ok(st)
  }

  /** st is what the entries es build; opened by IsBuiltMeans. */
  ghost predicate IsBuilt(es: seq<Entry>, st: State) {
    forall seal :: BuildUnder(seal, es, st)
  }

  lemma IsBuiltMeans(es: seq<Entry>, st: State)
    ensures IsBuilt(es, st) <==> WellFormed(es) && Build(es) == Ok(st)
  {
    assert BuildUnder(Seal, es, st) == (WellFormed(es) && Build(es) == Ok(st));
  }

  ghost function NamesIn(es: seq<Dirent>): set<Name> {
    set i | 0 <= i < |es| :: es[i].name
  }

  lemma NamesInSnoc(es: seq<Dirent>, d: Dirent)
    ensures NamesIn(es + [d]) == NamesIn(es) + {d.name}
  {
    var es' := es + [d];
    forall n ensures n in NamesIn(es') <==> n in NamesIn(es) + {d.name} {
      if n in NamesIn(es) {
        var i :| 0 <= i < |es| && es[i].name == n;
        assert es'[i].name == n;
      }
      assert es'[|es|].name == d.name;
    }
  }

  ghost predicate AreEntries(t: Tree, w: seq<Path>, p: Path, es: seq<Dirent>) {
    forall i :: 0 <= i < |es| ==> es[i] == EntryFor(t, w, p, es[i].name)
  }

  /** Sorted entries that agree with EntryFor on exactly the directory's names are its listing. */
  lemma ListingUnique(t: Tree, w: seq<Path>, p: Path, es: seq<Dirent>)
    requires SortedNames(es) && AreEntries(t, w, p, es) && NamesIn(es) == DirNames(t, p)
    ensures es == DirEntries(t, w, p)
  {
    LtIsOrder();
    var ns := seq(|es|, i requires 0 <= i < |es| => es[i].name);
    forall n ensures n in Elements(ns) <==> n in NamesIn(es) {
      if n in Elements(ns) {
        var i :| 0 <= i < |ns| && ns[i] == n;
        assert es[i].name == n;
      }
      if n in NamesIn(es) {
        var i :| 0 <= i < |es| && es[i].name == n;
        assert ns[i] == n;
      }
    }
    assert Elements(ns) == DirNames(t, p);
    SortUnique(Lt, ns, SortSet(Lt, DirNames(t, p)));
  }

  /** Reordering keeps the names and the entries. */
  lemma Reordered(t: Tree, w: seq<Path>, p: Path, es: seq<Dirent>, es': seq<Dirent>)
    requires AreEntries(t, w, p, es) && forall x :: x in es' <==> x in es
    ensures AreEntries(t, w, p, es') && NamesIn(es') == NamesIn(es)
  {
    forall i | 0 <= i < |es'| ensures es'[i] == EntryFor(t, w, p, es'[i].name) {
      assert es'[i] in es;
    }
    forall n ensures n in NamesIn(es') <==> n in NamesIn(es) {
      if n in NamesIn(es) {
        var i :| 0 <= i < |es| && es[i].name == n;
        assert es[i] in es';
      }
      if n in NamesIn(es') {
        var i :| 0 <= i < |es'| && es'[i].name == n;
        assert es'[i] in es;
      }
    }
  }

  ghost predicate DistinctNames(s: seq<Dirent>) {
    forall i, j :: 0 <= i < j < |s| ==> s[i].name != s[j].name
  }

  /** The entries of a directory's names, but for those in rest. */
  ghost predicate EntriesBut(t: Tree, w: seq<Path>, p: Path, es: seq<Dirent>, rest: set<Name>) {
    DistinctNames(es) && AreEntries(t, w, p, es) && NamesIn(es) == DirNames(t, p) - rest
  }

  /** One more name listed. */
  lemma ListingGrows(t: Tree, w: seq<Path>, p: Path, es: seq<Dirent>, d: Dirent, rest: set<Name>)
    requires EntriesBut(t, w, p, es, rest)
    requires d == EntryFor(t, w, p, d.name) && d.name in rest && d.name in DirNames(t, p)
    ensures EntriesBut(t, w, p, es + [d], rest - {d.name})
  {
    NamesInSnoc(es, d);
    forall i | 0 <= i < |es| ensures es[i].name != d.name {
      assert es[i].name in NamesIn(es);
    }
  }

  lemma DotListing(t: Tree, w: seq<Path>, p: Path, es: seq<Dirent>)
    requires es == [EntryFor(t, w, p, DOT), EntryFor(t, w, p, DOTDOT)]
    requires DOT !in ChildNames(t, p) && DOTDOT !in ChildNames(t, p)
    ensures EntriesBut(t, w, p, es, ChildNames(t, p))
  {
    assert es[0].name == DOT && es[1].name == DOTDOT;
    forall n ensures n in NamesIn(es) <==> n == DOT || n == DOTDOT {
    }
  }
}
