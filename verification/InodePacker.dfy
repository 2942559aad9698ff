/** The fixed-size records of the image, filled field by field into zeroed buffers. */
module InodePacker {
  import opened Bytes
  import opened DirPacker
  import opened TarTree
  import opened Image
  import opened NodeGraph

  /** The bytes written so far, then zeros. */
  ghost predicate Filled(buf: array<byte>, pre: seq<byte>)
    reads buf
  {
    |pre| <= buf.Length && buf[..] == pre + Zeros(buf.Length - |pre|)
  }

  lemma FilledNext(was: seq<byte>, now: seq<byte>, pre: seq<byte>, off: nat, part: seq<byte>)
    requires |pre| <= off && off + |part| <= |was| && was == pre + Zeros(|was| - |pre|)
    requires now == was[..off] + part + was[off + |part|..]
    ensures now == (pre + Zeros(off - |pre|) + part) + Zeros(|was| - off - |part|)
  {
    assert was[..off] == pre + Zeros(off - |pre|);
    assert was[off + |part|..] == Zeros(|was| - off - |part|);
  }

  /** Write the low k bytes of n at off, past everything written so far. */
  method PutNext(buf: array<byte>, ghost pre: seq<byte>, off: nat, n: nat, k: nat) returns (ghost r: seq<byte>)
    requires Filled(buf, pre) && |pre| <= off && off + k <= buf.Length
    modifies buf
    ensures r == pre + Zeros(off - |pre|) + EncodeLE(n, k) && Filled(buf, r)
  {
    PutLE(buf, off, n, k);
    r := pre + Zeros(off - |pre|) + EncodeLE(n, k);
    FilledNext(old(buf[..]), buf[..], pre, off, EncodeLE(n, k));
  }

  method CopyNext(buf: array<byte>, ghost pre: seq<byte>, off: nat, s: seq<byte>) returns (ghost r: seq<byte>)
    requires Filled(buf, pre) && |pre| <= off && off + |s| <= buf.Length
    modifies buf
    ensures r == pre + Zeros(off - |pre|) + s && Filled(buf, r)
  {
    CopyInto(buf, off, s);
    r := pre + Zeros(off - |pre|) + s;
    FilledNext(old(buf[..]), buf[..], pre, off, s);
  }

  lemma JoinHead(a: seq<byte>, b: seq<byte>, c: seq<byte>, d: seq<byte>, e: seq<byte>, r: seq<byte>)
    requires |a| == 2 && |b| == 2 && |c| == 8 && |d| == 4 && |e| == 4
    requires r == ((((([] + Zeros(0) + a) + Zeros(2) + b) + Zeros(2) + c) + Zeros(0) + d) + Zeros(0) + e)
    ensures r == a + Zeros(2) + b + Zeros(2) + c + d + e
  {
  }

  method PutHead(buf: array<byte>, n: FsNode) returns (ghost r: seq<byte>)
    requires buf.Length == 64 && Filled(buf, [])
    modifies buf
    ensures r == InodeHead(n.Rec()) && Filled(buf, r)
  {
    ghost var rec := n.Rec();
    r := PutNext(buf, [], 0, 1, 2);
    r := PutNext(buf, r, 4, n.mode, 2);
    r := PutNext(buf, r, 8, n.size, 8);
    r := PutNext(buf, r, 16, if IsDevice(n.ftype) then n.rdev else n.blkaddr, 4);
    r := PutNext(buf, r, 20, n.ino, 4);
    JoinHead(EncodeLE(1, 2), EncodeLE(rec.mode, 2), EncodeLE(rec.size, 8), EncodeLE(InodeUnion(rec), 4),
             EncodeLE(rec.ino, 4), r);
  }

  lemma JoinTail(h: seq<byte>, a: seq<byte>, b: seq<byte>, c: seq<byte>, d: seq<byte>, r: seq<byte>)
    requires |h| == 24 && |a| == 4 && |b| == 4 && |c| == 8 && |d| == 4
    requires r == ((((h + Zeros(0) + a) + Zeros(0) + b) + Zeros(0) + c) + Zeros(4) + d)
    ensures r + Zeros(16) == h + (a + b + c + Zeros(4) + d + Zeros(16))
  {
  }

  /** The inode of n, as writeInodes fills its buffer. */
  method PutInode(buf: array<byte>, n: FsNode)
    requires buf.Length == 64 && buf[..] == Zeros(64)
    modifies buf
    ensures buf[..] == InodeBytes(n.Rec())
  {
    ghost var rec := n.Rec();
    ghost var h := PutHead(buf, n);
    ghost var r := PutNext(buf, h, 24, n.uid, 4);
    r := PutNext(buf, r, 28, n.gid, 4);
    r := PutNext(buf, r, 32, Uint64(n.mtime), 8);
    r := PutNext(buf, r, 44, n.nlink, 4);
    JoinTail(h, EncodeLE(rec.uid, 4), EncodeLE(rec.gid, 4), EncodeLE(Uint64(rec.mtime), 8), EncodeLE(rec.nlink, 4), r);
  }

  method ZeroFill(buf: array<byte>)
    modifies buf
    ensures buf[..] == Zeros(buf.Length)
  {
    for i := 0 to buf.Length
      invariant forall j :: 0 <= j < i ==> buf[j] == 0
    {
      buf[i] := 0;
    }
  }

  lemma JoinSuper(a: seq<byte>, b: seq<byte>, c: seq<byte>, d: seq<byte>, e: seq<byte>, u: seq<byte>, l: seq<byte>,
                  h: seq<byte>, r: seq<byte>)
    requires |a| == 4 && |b| == 2 && |c| == 8 && |d| == 4 && |e| == 4 && |u| == 16 && |l| == 9
    requires h == ((([] + Zeros(0) + a) + Zeros(8) + [12]) + Zeros(1) + b) + Zeros(0) + c
    requires r == ((((h + Zeros(12) + d) + Zeros(0) + e) + Zeros(4) + u) + Zeros(0) + l)
    ensures h == a + Zeros(8) + [12, 0] + b + c
    ensures r + Zeros(55) == h + (Zeros(12) + d + e + Zeros(4) + u + l + Zeros(55))
  {
  }

  /** The superblock, as writeSuperblock fills its buffer. */
  method PutSuper(buf: array<byte>, rootNid: nat, inos: nat, blocks: nat, metaBlk: nat)
    requires buf.Length == 128 && buf[..] == Zeros(128)
    modifies buf
    ensures buf[..] == SuperBytes(rootNid, inos, blocks, metaBlk)
  {
    ghost var h := PutNext(buf, [], 0, MAGIC, 4);
    h := CopyNext(buf, h, 12, [12]);
    h := PutNext(buf, h, 14, rootNid, 2);
    h := PutNext(buf, h, 16, inos, 8);
    ghost var r := PutNext(buf, h, 36, blocks, 4);
    r := PutNext(buf, r, 40, metaBlk, 4);
    r := CopyNext(buf, r, 48, UUID);
    r := CopyNext(buf, r, 64, LABEL);
    JoinSuper(EncodeLE(MAGIC, 4), EncodeLE(rootNid, 2), EncodeLE(inos, 8), EncodeLE(blocks, 4), EncodeLE(metaBlk, 4),
              UUID, LABEL, h, r);
  }
}
