/** A reader of the format, applied to the image Convert writes, gets the tar's tree back. */
module RoundTrip {
  import opened Wrappers
  import opened Bytes
  import opened Sorting
  import opened DirFormat
  import opened TarTree
  import opened TarInvariant
  import opened Walk
  import opened Image
  import Reader

  // ---------------------------------------------------------------- fixed-size records decode

  lemma SliceOf(s: seq<byte>, o: nat, part: seq<byte>, i: nat, k: nat, n: nat)
    requires o + |part| <= |s| && s[o..o + |part|] == part
    requires i + k <= |part| && part[i..i + k] == EncodeLE(n, k)
    ensures ReadLE(s, o + i, k) == n % Pow256(k)
  {
    SubSlice(s, o, |part|, i, i + k);
    ReadBack(s, o + i, n, k);
  }

  lemma HeadFields(n: Node)
    ensures var b := InodeHead(n);
            && b[0..2] == EncodeLE(1, 2) && b[4..6] == EncodeLE(n.mode, 2) && b[8..16] == EncodeLE(n.size, 8)
            && b[16..20] == EncodeLE(InodeUnion(n), 4) && b[20..24] == EncodeLE(n.ino, 4)
  {
  }

  lemma TailFields(n: Node)
    ensures var b := InodeTail(n);
            && b[0..4] == EncodeLE(n.uid, 4) && b[4..8] == EncodeLE(n.gid, 4)
            && b[8..16] == EncodeLE(Uint64(n.mtime), 8) && b[20..24] == EncodeLE(n.nlink, 4)
  {
  }

  /** Every number of the node fits its field of the inode. */
  predicate Fits(n: Node) {
    && n.mode < 0x1_0000 && n.size < 0x1_0000_0000_0000_0000
    && n.rdev < 0x1_0000_0000 && n.blkaddr < 0x1_0000_0000 && n.ino < 0x1_0000_0000
    && n.uid < 0x1_0000_0000 && n.gid < 0x1_0000_0000 && n.nlink < 0x1_0000_0000
  }

  function Decoded(n: Node): Reader.Inode {
    Reader.Inode(n.mode, n.size, InodeUnion(n), n.ino, n.uid, n.gid, n.mtime, n.nlink)
  }

  lemma Field2(s: seq<byte>, o: nat, part: seq<byte>, i: nat, n: nat)
    requires o + |part| <= |s| && s[o..o + |part|] == part && i + 2 <= |part|
    requires part[i..i + 2] == EncodeLE(n, 2) && n < 0x1_0000
    ensures ReadLE(s, o + i, 2) == n
  {
    SliceOf(s, o, part, i, 2, n);
    Widths();
  }

  lemma Field4(s: seq<byte>, o: nat, part: seq<byte>, i: nat, n: nat)
    requires o + |part| <= |s| && s[o..o + |part|] == part && i + 4 <= |part|
    requires part[i..i + 4] == EncodeLE(n, 4) && n < 0x1_0000_0000
    ensures ReadLE(s, o + i, 4) == n
  {
    SliceOf(s, o, part, i, 4, n);
    Widths();
  }

  lemma Field8(s: seq<byte>, o: nat, part: seq<byte>, i: nat, n: nat)
    requires o + |part| <= |s| && s[o..o + |part|] == part && i + 8 <= |part|
    requires part[i..i + 8] == EncodeLE(n, 8) && n < 0x1_0000_0000_0000_0000
    ensures ReadLE(s, o + i, 8) == n
  {
    SliceOf(s, o, part, i, 8, n);
    Widths();
  }

  lemma SignedBack(m: int)
    requires -0x8000_0000_0000_0000 <= m < 0x8000_0000_0000_0000
    ensures Reader.Signed64(Uint64(m)) == m
  {
  }

  lemma InodeReadsHead(img: seq<byte>, o: nat, n: Node)
    requires o + 24 <= |img| && img[o..o + 24] == InodeHead(n) && Fits(n)
    ensures ReadLE(img, o, 2) == 1 && ReadLE(img, o + 4, 2) == n.mode && ReadLE(img, o + 8, 8) == n.size
    ensures ReadLE(img, o + 16, 4) == InodeUnion(n) && ReadLE(img, o + 20, 4) == n.ino
  {
    var b := InodeHead(n);
    HeadFields(n);
    Field2(img, o, b, 0, 1);
    Field2(img, o, b, 4, n.mode);
    Field8(img, o, b, 8, n.size);
    Field4(img, o, b, 16, InodeUnion(n));
    Field4(img, o, b, 20, n.ino);
  }

  lemma InodeReadsTail(img: seq<byte>, o: nat, n: Node)
    requires o + 40 <= |img| && img[o..o + 40] == InodeTail(n) && Fits(n)
    ensures ReadLE(img, o, 4) == n.uid && ReadLE(img, o + 4, 4) == n.gid
    ensures Reader.Signed64(ReadLE(img, o + 8, 8)) == n.mtime && ReadLE(img, o + 20, 4) == n.nlink
  {
    var b := InodeTail(n);
    TailFields(n);
    Field4(img, o, b, 0, n.uid);
    Field4(img, o, b, 4, n.gid);
    Field8(img, o, b, 8, Uint64(n.mtime));
    SignedBack(n.mtime);
    Field4(img, o, b, 20, n.nlink);
  }

  lemma InodeHalves(img: seq<byte>, o: nat, n: Node)
    requires o + 64 <= |img| && img[o..o + 64] == InodeBytes(n)
    ensures img[o..o + 24] == InodeHead(n) && img[o + 24..o + 24 + 40] == InodeTail(n)
  {
    SubSlice(img, o, 64, 0, 24);
    SubSlice(img, o, 64, 24, 64);
  }

  lemma InodeDecodes(img: seq<byte>, o: nat, n: Node)
    requires o + 64 <= |img| && img[o..o + 64] == InodeBytes(n) && Fits(n)
    ensures Reader.InodeAt(img, o) == Some(Decoded(n))
  {
    InodeHalves(img, o, n);
    InodeReadsHead(img, o, n);
    InodeReadsTail(img, o + 24, n);
  }

  lemma SuperHeadReads(img: seq<byte>, rootNid: nat, inos: nat)
    requires |img| >= 1152 && img[1024..1048] == SuperHead(rootNid, inos)
    requires rootNid < 0x1_0000 && inos < 0x1_0000_0000_0000_0000
    ensures ReadLE(img, 1024, 4) == MAGIC && img[1036] == 12 && img[1037] == 0
    ensures ReadLE(img, 1038, 2) == rootNid && ReadLE(img, 1040, 8) == inos
  {
    var b := SuperHead(rootNid, inos);
    assert b[0..4] == EncodeLE(MAGIC, 4) && b[14..16] == EncodeLE(rootNid, 2) && b[16..24] == EncodeLE(inos, 8);
    assert b[12] == 12 && b[13] == 0;
    assert img[1024..1048][12] == img[1036] && img[1024..1048][13] == img[1037];
    Field4(img, 1024, b, 0, MAGIC);
    Field2(img, 1024, b, 14, rootNid);
    Field8(img, 1024, b, 16, inos);
  }

  lemma SuperTailReads(img: seq<byte>, blocks: nat, metaBlk: nat)
    requires |img| >= 1152 && img[1048..1152] == SuperTail(blocks, metaBlk)
    requires blocks < 0x1_0000_0000 && metaBlk < 0x1_0000_0000
    ensures ReadLE(img, 1060, 4) == blocks && ReadLE(img, 1064, 4) == metaBlk
  {
    var b := SuperTail(blocks, metaBlk);
    assert b[12..16] == EncodeLE(blocks, 4) && b[16..20] == EncodeLE(metaBlk, 4);
    Field4(img, 1048, b, 12, blocks);
    Field4(img, 1048, b, 16, metaBlk);
  }

  lemma SuperDecodes(out: seq<byte>, rootNid: nat, inos: nat, blocks: nat, metaBlk: nat)
    requires |out| >= 4096
    requires rootNid < 0x1_0000 && inos < 0x1_0000_0000_0000_0000 && blocks < 0x1_0000_0000 && metaBlk < 0x1_0000_0000
    ensures Reader.ReadSuper(WithSuper(out, SuperBytes(rootNid, inos, blocks, metaBlk)))
            == Some(Reader.Super(rootNid, inos, blocks, metaBlk))
  {
    var img := WithSuper(out, SuperBytes(rootNid, inos, blocks, metaBlk));
    assert img[1024..1152] == SuperBytes(rootNid, inos, blocks, metaBlk);
    SubSlice(img, 1024, 128, 0, 24);
    SubSlice(img, 1024, 128, 24, 128);
    SuperHeadReads(img, rootNid, inos);
    SuperTailReads(img, blocks, metaBlk);
  }

  /** The rest of the superblock: a fixed id and name, and zeros, so no checksum and no feature to know about. */
  lemma SuperRest(out: seq<byte>, rootNid: nat, inos: nat, blocks: nat, metaBlk: nat)
    requires |out| >= 4096
    ensures var sb := WithSuper(out, SuperBytes(rootNid, inos, blocks, metaBlk))[1024..1152];
            && (forall i :: 0 <= i < 16 ==> sb[48 + i] == "kube-on-macos---"[i] as int)
            && (forall i :: 0 <= i < 9 ==> sb[64 + i] == "pod-image"[i] as int)
            && (forall i :: 4 <= i < 12 || 24 <= i < 36 || 44 <= i < 48 || 73 <= i < 128 ==> sb[i] == 0)
  {
    var sb := SuperBytes(rootNid, inos, blocks, metaBlk);
    assert WithSuper(out, sb)[1024..1152] == sb;
    SuperPieces(rootNid, inos, blocks, metaBlk);
  }

  lemma SuperPieces(rootNid: nat, inos: nat, blocks: nat, metaBlk: nat)
    ensures var sb := SuperBytes(rootNid, inos, blocks, metaBlk);
            && (forall i :: 0 <= i < 16 ==> sb[48 + i] == "kube-on-macos---"[i] as int)
            && (forall i :: 0 <= i < 9 ==> sb[64 + i] == "pod-image"[i] as int)
            && (forall i :: 4 <= i < 12 || 24 <= i < 36 || 44 <= i < 48 || 73 <= i < 128 ==> sb[i] == 0)
  {
    var head, tail := SuperHead(rootNid, inos), SuperTail(blocks, metaBlk);
    assert forall i :: 4 <= i < 12 ==> head[i] == 0;
    assert forall i :: 0 <= i < 12 || 20 <= i < 24 || 49 <= i < 104 ==> tail[i] == 0;
    assert forall i :: 0 <= i < 16 ==> tail[24 + i] == UUID[i];
    assert forall i :: 0 <= i < 9 ==> tail[40 + i] == LABEL[i];
    TextIs();
  }

  lemma TextIs()
    ensures forall i :: 0 <= i < 16 ==> UUID[i] == "kube-on-macos---"[i] as int
    ensures forall i :: 0 <= i < 9 ==> LABEL[i] == "pod-image"[i] as int
  {
  }

  /** The rest of an inode is zero: no extended attributes, no nanoseconds. */
  lemma InodeRest(n: Node)
    ensures forall i :: 2 <= i < 4 || 6 <= i < 8 || 40 <= i < 44 || 48 <= i < 64 ==> InodeBytes(n)[i] == 0
  {
    var head, tail := InodeHead(n), InodeTail(n);
    assert forall i :: 2 <= i < 4 || 6 <= i < 8 ==> head[i] == 0;
    assert forall i :: 16 <= i < 20 || 24 <= i < 40 ==> tail[i] == 0;
  }

  /** The superblock touches nothing from block 1 on. */
  lemma SuperLeaves(out: seq<byte>, sb: seq<byte>, i: nat, j: nat)
    requires |out| >= 4096 && |sb| == 128 && 4096 <= i <= j <= |out|
    ensures |WithSuper(out, sb)| == |out| && WithSuper(out, sb)[i..j] == out[i..j]
  {
  }

  // ---------------------------------------------------------------- where things land

  lemma PrefixSlice(a: seq<byte>, b: seq<byte>, i: nat, j: nat)
    requires a <= b && i <= j <= |a|
    ensures b[i..j] == a[i..j]
  {
  }

  lemma AppendSlice(a: seq<byte>, m: seq<byte>, i: nat, j: nat)
    requires i <= j <= |m|
    ensures (a + m)[|a| + i..|a| + j] == m[i..j]
  {
  }

  lemma {:induction false} TableAt(ns: seq<Node>, k: nat)
    requires k < |ns|
    ensures InodeTable(ns)[64 * k..64 * k + 64] == InodeBytes(ns[k])
  {
    var init, last := ns[..|ns| - 1], InodeBytes(ns[|ns| - 1]);
    if k < |init| {
      TableAt(init, k);
      PrefixSlice(InodeTable(init), InodeTable(init) + last, 64 * k, 64 * k + 64);
    } else {
      AppendSlice(InodeTable(init), last, 0, 64);
    }
  }

  /** The layers of a finished image: data, directories, meta area, superblock. */
  ghost predicate Laid(dirs: seq<byte>, ns: seq<Node>, img: seq<byte>) {
    && Sized(dirs) && img == FinishImage(dirs, ns)
    && Addressable(img) && |ns| < 0x1_0000_0000
  }

  /** Later stages never touch what a stage wrote from block 1 on. */
  lemma Kept(layer: seq<byte>, meta: seq<byte>, img: seq<byte>, sb: seq<byte>, i: nat, j: nat)
    requires layer <= meta && |meta| >= 4096 && |sb| == 128 && img == WithSuper(meta, sb)
    requires 4096 <= i <= j <= |layer|
    ensures j <= |img| && img[i..j] == layer[i..j]
  {
    SuperLeaves(meta, sb, i, j);
    PrefixSlice(layer, meta, i, j);
  }

  lemma DirsKept(dirs: seq<byte>, ns: seq<Node>, img: seq<byte>, i: nat, j: nat)
    requires Laid(dirs, ns, img) && 4096 <= i <= j <= |dirs|
    ensures j <= |img| && img[i..j] == dirs[i..j]
  {
    var meta := MetaOut(dirs, ns);
    assert dirs <= dirs + Zeros(64) + InodeTable(ns) <= meta;
    Kept(dirs, meta, img, SuperBytes(2, |ns|, NextBlk(meta), NextBlk(dirs)), i, j);
  }

  function SuperOf(dirs: seq<byte>, ns: seq<Node>): Reader.Super {
    Reader.Super(2, |ns|, NextBlk(MetaOut(dirs, ns)), |dirs| / 4096)
  }

  lemma NextBlkExact(out: seq<byte>)
    requires |out| < 4096 * 0x1_0000_0000
    ensures NextBlk(out) == |out| / 4096
  {
  }

  lemma MetaLonger(dirs: seq<byte>, ns: seq<Node>)
    ensures |dirs| + 64 + 64 * |ns| <= |MetaOut(dirs, ns)|
    ensures dirs + Zeros(64) + InodeTable(ns) <= MetaOut(dirs, ns)
  {
  }

  lemma SuperReadsBack(dirs: seq<byte>, ns: seq<Node>, img: seq<byte>)
    requires Laid(dirs, ns, img)
    ensures Reader.ReadSuper(img) == Some(SuperOf(dirs, ns)) && |dirs| < |img|
  {
    var meta := MetaOut(dirs, ns);
    MetaLonger(dirs, ns);
    assert |img| == |meta|;
    NextBlkExact(dirs);
    SuperDecodes(meta, 2, |ns|, NextBlk(meta), NextBlk(dirs));
  }

  lemma TableInImage(dirs: seq<byte>, ns: seq<Node>, img: seq<byte>, k: nat)
    requires Laid(dirs, ns, img) && k < |ns|
    ensures |dirs| + 64 + 64 * k + 64 <= |img|
    ensures img[|dirs| + 64 + 64 * k..|dirs| + 64 + 64 * k + 64] == InodeBytes(ns[k])
  {
    var o := |dirs| + 64 + 64 * k;
    var head, tab, meta := dirs + Zeros(64), InodeTable(ns), MetaOut(dirs, ns);
    TableAt(ns, k);
    AppendSlice(head, tab, 64 * k, 64 * k + 64);
    assert (head + tab)[o..o + 64] == InodeBytes(ns[k]);
    MetaLonger(dirs, ns);
    Kept(head + tab, meta, img, SuperBytes(2, |ns|, NextBlk(meta), NextBlk(dirs)), o, o + 64);
  }

  lemma SlotOffset(img: seq<byte>, dirs: seq<byte>, ns: seq<Node>, k: nat)
    requires Sized(dirs)
    ensures Reader.ReadInode(img, SuperOf(dirs, ns), 2 + 2 * k) == Reader.InodeAt(img, |dirs| + 64 + 64 * k)
  {
    assert Reader.InodeOffset(SuperOf(dirs, ns), 2 + 2 * k) == |dirs| + 64 + 64 * k;
  }

  /** Slot 2 + 2k holds inode k of the walk. */
  lemma InodeReadsBack(dirs: seq<byte>, ns: seq<Node>, img: seq<byte>, k: nat)
    requires Laid(dirs, ns, img) && k < |ns| && Fits(ns[k])
    ensures Reader.ReadInode(img, SuperOf(dirs, ns), 2 + 2 * k) == Some(Decoded(ns[k]))
  {
    TableInImage(dirs, ns, img, k);
    SlotOffset(img, dirs, ns, k);
    InodeDecodes(img, |dirs| + 64 + 64 * k, ns[k]);
  }

  /** The data of the directory w[k] lies where the output stood when it was written. */
  lemma DirLands(t: Tree, w: seq<Path>, k: nat, out: seq<byte>)
    requires Shape(t) && k < |w| && Sized(out) && RealDir(t, w[k])
    ensures var o, data := |DirsOut(t, w, k, out)|, DirData(t, w, w[k]);
            o + |data| <= |DirsOut(t, w, |w|, out)| && DirsOut(t, w, |w|, out)[o..o + |data|] == data
  {
    var prev, data := DirsOut(t, w, k, out), DirData(t, w, w[k]);
    DirsGrow(t, w, k + 1, |w|, out);
    assert prev + data <= DirsOut(t, w, k + 1, out) <= DirsOut(t, w, |w|, out);
    PrefixSlice(prev + data, DirsOut(t, w, |w|, out), |prev|, |prev| + |data|);
  }
}
