/**
 A reader of the uncompressed EROFS format over raw bytes: superblock, inode by
 nid, flat-plain data, directory lookup and path resolution. It knows nothing of
 the writer; malformed input reads as None.
 */
module Reader {
  import opened Wrappers
  import opened Bytes
  import opened DirFormat

  type Path = seq<Name>

  datatype Super = Super(rootNid: nat, inos: nat, blocks: nat, metaBlk: nat)

  datatype Inode = Inode(mode: nat, size: nat, u: nat, ino: nat, uid: nat, gid: nat, mtime: int, nlink: nat)

  const SUPER_MAGIC: nat := 0xE0F5E1E2

  function ReadSuper(img: seq<byte>): Option<Super> {
    if |img| < 1152 || ReadLE(img, 1024, 4) != SUPER_MAGIC || img[1036] != 12 || img[1037] != 0 then
      None
    else
      Some(Super(ReadLE(img, 1038, 2), ReadLE(img, 1040, 8), ReadLE(img, 1060, 4), ReadLE(img, 1064, 4)))
  }

  function InodeOffset(sb: Super, nid: nat): nat {
    4096 * sb.metaBlk + 32 * nid
  }

  /** A 64-bit two's complement number. */
  function Signed64(n: nat): int {
    if n < 0x8000_0000_0000_0000 then n else n - 0x1_0000_0000_0000_0000
  }

  /** The 64-byte inode at an offset; only extended, flat-plain inodes are understood. */
  function InodeAt(img: seq<byte>, o: nat): Option<Inode> {
    if |img| < o + 64 || ReadLE(img, o, 2) != 1 then
      None
    else
      Some(Inode(ReadLE(img, o + 4, 2), ReadLE(img, o + 8, 8), ReadLE(img, o + 16, 4), ReadLE(img, o + 20, 4),
                 ReadLE(img, o + 24, 4), ReadLE(img, o + 28, 4), Signed64(ReadLE(img, o + 32, 8)),
                 ReadLE(img, o + 44, 4)))
  }

  function ReadInode(img: seq<byte>, sb: Super, nid: nat): Option<Inode> {
    InodeAt(img, InodeOffset(sb, nid))
  }

  /** The bytes of a file, link target or directory. */
  function Body(img: seq<byte>, n: Inode): Option<seq<byte>> {
    if n.size == 0 then Some([])
    else if 4096 * n.u + n.size <= |img| then Some(img[4096 * n.u..4096 * n.u + n.size])
    else None
  }

  predicate IsDirectory(n: Inode) {
    n.mode / 0x1000 == 4
  }

  /** The dirent type of an inode, by the format bits of its mode. */
  function TypeOf(n: Inode): nat {
    match n.mode / 0x1000
    case 8 => 1
    case 4 => 2
    case 2 => 3
    case 6 => 4
    case 1 => 5
    case 10 => 7
    case _ => 0
  }

  /** One step of a path walk. */
  function LookupIn(img: seq<byte>, sb: Super, nid: nat, name: Name): Option<Found> {
    match ReadInode(img, sb, nid)
    case None => None
    case Some(n) =>
      if !IsDirectory(n) then None else
        match Body(img, n)
        case None => None
        case Some(data) => LookupDir(data, name)
  }

  /** The nid a path leads to, starting from the inode nid. */
  function Resolve(img: seq<byte>, sb: Super, nid: nat, p: Path): Option<nat>
    decreases |p|
  {
    if p == [] then
      Some(nid)
    else
      match Resolve(img, sb, nid, p[..|p| - 1])
      case None => None
      case Some(d) =>
        match LookupIn(img, sb, d, p[|p| - 1])
        case None => None
        case Some(f) => Some(f.nid)
  }

  /** The numbers of a device inode (new_decode_dev): bits 8 to 19, and bits 20 to 31 above the lowest 8. */
  function DecodeMajor(dev: nat): nat {
    dev / 0x100 % 0x1000
  }

  function DecodeMinor(dev: nat): nat {
    dev / 0x10_0000 % 0x1000 * 0x100 + dev % 0x100
  }
}
