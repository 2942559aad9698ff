/**
 The node graph built from the tar stream. Nodes are keyed by their cleaned path
 (byPath in the source); an implicit parent is a directory until an entry says
 otherwise. What the graph must be is stated from the entry list alone.
 */
module TarTree {
  import opened Wrappers
  import opened Bytes

  type Path = seq<Name>

  // erofs_dirent file types
  const FT_REG: byte := 1
  const FT_DIR: byte := 2
  const FT_CHARDEV: byte := 3
  const FT_BLKDEV: byte := 4
  const FT_FIFO: byte := 5
  const FT_SYMLINK: byte := 7

  /** Conversion to uint32. */
  function Uint32(n: int): (r: nat)
    ensures r < 0x1_0000_0000
  {
    n % 0x1_0000_0000
  }

  datatype Kind = Dir | Reg | Symlink | Hardlink | CharDev | BlockDev | Fifo

  type int64 = x: int | -0x8000_0000_0000_0000 <= x < 0x8000_0000_0000_0000

  datatype Entry = Entry(name: Name, kind: Kind, mode: int, uid: int, gid: int, mtime: int64,
                         size: nat, data: seq<byte>, linkname: Name, major: int, minor: int)

  datatype Node = Node(ftype: byte, mode: nat, uid: nat, gid: nat, mtime: int64, rdev: nat,
                       size: nat, blkaddr: nat, nlink: nat, nid: nat, ino: nat, hardTo: Option<Path>)

  type Tree = map<Path, Node>

  datatype State = State(tree: Tree, out: seq<byte>)

  // ---------------------------------------------------------------- names

  const SLASH: byte := 47
  const DOT: Name := [46]
  const DOTDOT: Name := [46, 46]

  function Component(c: Name): Path {
    if c == [] || c == DOT then [] else [c]
  }

  function Components(s: Name, current: Name): Path {
    if s == [] then
      Component(current)
    else if s[0] == SLASH then
      Component(current) + Components(s[1..], [])
    else
      Components(s[1..], current + [s[0]])
  }

  /** path.Clean(strings.TrimPrefix(name, "/")) as components, for names without "..". */
  function Clean(name: Name): Path {
    Components(name, [])
  }

  function PathOf(e: Entry): Path {
    Clean(e.name)
  }

  /** Slashes only separate: what is before one and what is behind it are cleaned apart. */
  lemma {:induction false} ComponentsSplit(a: Name, b: Name, current: Name)
    ensures Components(a + [47] + b, current) == Components(a, current) + Components(b, [])
    decreases a
  {
    var s := a + [47] + b;
    if a == [] {
      assert s[1..] == b;
    } else {
      assert s[0] == a[0] && s[1..] == a[1..] + [47] + b;
      ComponentsSplit(a[1..], b, if a[0] == 47 then [] else current + [a[0]]);
    }
  }

  lemma CleanSplit(a: Name, b: Name)
    ensures Clean(a + [47] + b) == Clean(a) + Clean(b)
  {
    ComponentsSplit(a, b, []);
  }

  lemma {:induction false} ComponentsPlain(s: Name, current: Name)
    requires 47 !in s
    ensures Components(s, current) == if current + s == [] || current + s == [46] then [] else [current + s]
    decreases s
  {
    if s == [] {
      assert current + s == current;
    } else {
      ComponentsPlain(s[1..], current + [s[0]]);
      assert current + [s[0]] + s[1..] == current + s;
    }
  }

  /** A name without a slash is its own only component, unless it is empty or ".". */
  lemma CleanPlain(s: Name)
    requires 47 !in s
    ensures Clean(s) == if s == [] || s == [46] then [] else [s]
  {
    ComponentsPlain(s, []);
    assert [] + s == s;
  }

  /** A path's components with slashes between them. */
  function Slashed(p: Path): Name {
    if p == [] then [] else if |p| == 1 then p[0] else p[0] + [47] + Slashed(p[1..])
  }

  /** The ways a tar spells a path: "/" or "./" may stand in front and "/" behind. */
  predicate Spells(name: Name, p: Path) {
    exists front, back :: front in {[], [47], [46, 47]} && back in {[], [47]} && name == front + Slashed(p) + back
  }

  lemma {:induction false} CleanSlashed(p: Path)
    requires forall i :: 0 <= i < |p| ==> 47 !in p[i] && p[i] != [] && p[i] != [46]
    ensures Clean(Slashed(p)) == p
  {
    if p == [] {
      CleanPlain([]);
    } else {
      CleanPlain(p[0]);
      if |p| > 1 {
        CleanSplit(p[0], Slashed(p[1..]));
        CleanSlashed(p[1..]);
      }
    }
  }

  /** However it is spelled, a name cleans to the path it spells. */
  lemma CleanSpelled(name: Name, p: Path)
    requires Spells(name, p) && forall i :: 0 <= i < |p| ==> 47 !in p[i] && p[i] != [] && p[i] != [46]
    ensures Clean(name) == p
  {
    var front, back :| front in {[], [47], [46, 47]} && back in {[], [47]} && name == front + Slashed(p) + back;
    var s := Slashed(p);
    CleanSlashed(p);
    CleanBack(s, back);
    CleanFront(front, s + back);
    assert front + s + back == front + (s + back);
  }

  lemma CleanBack(s: Name, back: Name)
    requires back in {[], [47]}
    ensures Clean(s + back) == Clean(s)
  {
    if back == [] {
      assert s + back == s;
    } else {
      CleanSplit(s, []);
      CleanPlain([]);
      assert s + back == s + [47] + [];
    }
  }

  lemma CleanFront(front: Name, s: Name)
    requires front in {[], [47], [46, 47]}
    ensures Clean(front + s) == Clean(s)
  {
    CleanPlain([]);
    CleanPlain([46]);
    if front == [] {
      assert front + s == s;
    } else if front == [47] {
      CleanSplit([], s);
      assert front + s == [] + [47] + s;
    } else {
      CleanSplit([46], s);
      assert front + s == [46] + [47] + s;
    }
  }

  function Parent(p: Path): Path
    requires p != []
  {
    p[..|p| - 1]
  }

  function Base(p: Path): Name
    requires p != []
  {
    p[|p| - 1]
  }

  // ---------------------------------------------------------------- attributes of an entry

  function FileType(k: Kind): byte {
    match k
    case Dir => FT_DIR
    case Reg => FT_REG
    case Symlink => FT_SYMLINK
    case CharDev => FT_CHARDEV
    case BlockDev => FT_BLKDEV
    case Fifo => FT_FIFO
    case Hardlink => FT_DIR
  }

  function FormatBits(k: Kind): nat {
    match k
    case Dir => 0x4000
    case Reg => 0x8000
    case Symlink => 0xA000
    case CharDev => 0x2000
    case BlockDev => 0x6000
    case Fifo => 0x1000
    case Hardlink => 0x4000
  }

  const IMPLICIT_MODE: nat := 0x41ED // 0o755 | 0x4000

  /** new_encode_dev: the low 32 bits of three shifted pieces, or-ed together. */
  function MkDev(major: int, minor: int): (dev: nat)
    ensures dev < 0x1_0000_0000
  {
    var low, mid := minor % 0x100, major * 0x100 % 0x1_0000_0000;
    var high := (minor - minor % 0x100) * 0x1000 % 0x1_0000_0000;
    Pow2Is();
    OrBelow(low, mid, 32);
    OrBelow(Or(low, mid), high, 32);
    Or(Or(low, mid), high)
  }

  /** What the entry's inode holds: file bytes or the link target. */
  function Content(e: Entry): seq<byte> {
    match e.kind
    case Reg => if e.size == 0 then [] else e.data
    case Symlink => e.linkname
    case _ => []
  }

  // ---------------------------------------------------------------- the writer's steps

  function NewDir(): Node {
    Node(FT_DIR, IMPLICIT_MODE, 0, 0, 0, 0, 0, 0, 2, 0, 0, None)
  }

  /** The tree Convert starts from: only the root. */
  function EmptyState(): State {
    State(map[[] := NewDir()], Zeros(4096))
  }

  function Inc(n: nat): nat {
    Uint32(n + 1)
  }

  function Dec(n: nat): nat {
    Uint32(n - 1)
  }

  /** canonical(): an alias always points at a node that is not itself an alias. */
  function Canonical(t: Tree, p: Path): Path
    requires p in t
  {
    match t[p].hardTo
    case None => p
    case Some(q) => q
  }

  /** Alias targets exist and are not aliases. */
  predicate AliasesEnd(t: Tree) {
    forall p | p in t && t[p].hardTo.Some? ::
      && t[p].hardTo.value in t && t[t[p].hardTo.value].hardTo.None?
      && t[t[p].hardTo.value].ftype != FT_DIR
  }

  predicate RealDir(t: Tree, p: Path) {
    p in t && t[p].hardTo.None? && t[p].ftype == FT_DIR
  }

  /** lookup(p, true): find or create the node, and its parents. */
  function Create(t: Tree, p: Path): Result<Tree>
    requires AliasesEnd(t) && [] in t
    decreases |p|
  {
    if p == [] || p in t then
      Ok(t)
    else
      match Create(t, Parent(p))
      case Err => Err
      case Ok(t1) =>
        if Parent(p) !in t1 || !RealDir(t1, Parent(p)) || |Base(p)| > 255 then
          Err
        else
          Ok(AddDir(t1, p))
  }

  /** A new directory node p and its ".." link on the parent. */
  function AddDir(t: Tree, p: Path): Tree
    requires p != [] && Parent(p) in t
  {
    t[Parent(p) := t[Parent(p)].(nlink := Inc(t[Parent(p)].nlink))][p := NewDir()]
  }

  predicate IsChild(p: Path, q: Path) {
    q != [] && Parent(q) == p
  }

  predicate HasChild(t: Tree, p: Path) {
    exists q :: q in t && IsChild(p, q)
  }

  /** A pre-created directory node becomes something else: its parent loses a "..". */
  function Retype(t: Tree, p: Path): Tree
    requires p in t && p != [] && Parent(p) in t
  {
    var par := Parent(p);
    var t1 := t[par := t[par].(nlink := Dec(t[par].nlink))];
    t1[p := t1[p].(nlink := 1)]
  }

  function Describe(n: Node, e: Entry): Node {
    var m := n.(uid := Uint32(e.uid), gid := Uint32(e.gid), mtime := e.mtime);
    if e.kind == Hardlink then
      m
    else
      var d := m.(mode := e.mode % 4096 + FormatBits(e.kind), ftype := FileType(e.kind));
      if e.kind == CharDev || e.kind == BlockDev then d.(rdev := MkDev(e.major, e.minor)) else d
  }

  lemma PadLength(n: nat)
    ensures var pad := (4096 - n % 4096) % 4096; pad < 4096 && (n + pad) % 4096 == 0
  {
  }

  /** Zero bytes up to the next block boundary. */
  function PadTo(out: seq<byte>): (r: seq<byte>)
    ensures |r| % 4096 == 0 && |out| <= |r| < |out| + 4096 && out <= r
  {
    PadLength(|out|);
    out + Zeros((4096 - |out| % 4096) % 4096)
  }

  /** nextBlk for an output of this length: a uint32. */
  function NextBlk(out: seq<byte>): nat {
    Uint32(|out| / 4096)
  }

  /** streamData: copy the content to the current block, or leave an empty file without one. */
  function Stream(st: State, p: Path, data: seq<byte>, size: nat): Result<State>
    requires p in st.tree
  {
    var n := st.tree[p].(size := size);
    if size == 0 then
      Ok(State(st.tree[p := n.(blkaddr := 0)], st.out))
    else if |data| != size then
      Err
    else
      Ok(State(st.tree[p := n.(blkaddr := NextBlk(st.out))], PadTo(st.out + data)))
  }

  function Link(t: Tree, p: Path, target: Path): Result<Tree>
    requires p in t
  {
    if target !in t || Canonical(t, target) !in t then
      Err
    else
      var c := Canonical(t, target);
      var t1 := t[p := t[p].(hardTo := Some(c))];
      Ok(t1[c := t1[c].(nlink := Inc(t1[c].nlink))])
  }

  /** The node of a non-directory entry, described but without content or alias yet. */
  function Detach(t: Tree, e: Entry): Tree
    requires PathOf(e) in t && PathOf(e) != [] && Parent(PathOf(e)) in t
  {
    var t1 := Retype(t, PathOf(e));
    t1[PathOf(e) := Describe(t1[PathOf(e)], e)]
  }

  function Finish(st: State, e: Entry): Result<State>
    requires PathOf(e) in st.tree
  {
    match e.kind
    case Reg => Stream(st, PathOf(e), e.data, e.size)
    case Symlink => Stream(st, PathOf(e), e.linkname, |e.linkname|)
    case Hardlink =>
      (match Link(st.tree, PathOf(e), Clean(e.linkname))
       case Err => Err
       case Ok(t) => Ok(State(t, st.out)))
    case _ => Ok(st)
  }

  /** addEntry, once the node for the entry's path exists. */
  function Fill(st: State, e: Entry): Result<State>
    requires PathOf(e) in st.tree
    requires e.kind != Dir ==> PathOf(e) != [] && Parent(PathOf(e)) in st.tree
  {
    var p := PathOf(e);
    if e.kind == Dir then
      Ok(st.(tree := st.tree[p := Describe(st.tree[p], e)]))
    else if HasChild(st.tree, p) then
      Err
    else
      Finish(State(Detach(st.tree, e), st.out), e)
  }
}
