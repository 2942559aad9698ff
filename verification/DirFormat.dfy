/**
 EROFS directory data. The writer half packs sorted dirents greedily into
 4096-byte blocks; the reader half finds a name by two binary searches, over the
 blocks by their first name and over the dirents of one block. The lookup theorem
 says the two halves agree, for directories of any size.
 */
module DirFormat {
  import opened Wrappers
  import opened Bytes

  datatype Dirent = Dirent(name: Name, nid: nat, ftype: byte)

  // ---------------------------------------------------------------- writer

  function NamesLen(es: seq<Dirent>): nat {
    if es == [] then 0 else |es[0].name| + NamesLen(es[1..])
  }

  /** The bytes a block needs for es: a 12-byte record and the name of each. */
  function Span(es: seq<Dirent>): nat {
    12 * |es| + NamesLen(es)
  }

  /** How many entries of es the greedy packer takes into a block already holding `used` bytes. */
  function Fit(es: seq<Dirent>, used: nat): (c: nat)
    ensures c <= |es|
    ensures used <= 4096 ==> used + Span(es[..c]) <= 4096
    ensures c < |es| ==> used + Span(es[..c + 1]) > 4096
  {
    if es == [] then
      0
    else
      var need := used + 12 + |es[0].name|;
      if need > 4096 then
        assert es[..1][1..] == [];
        0
      else
        var c := Fit(es[1..], need);
        assert es[..1 + c][1..] == es[1..][..c];
        assert c < |es| - 1 ==> es[..c + 2][1..] == es[1..][..c + 1];
        1 + c
  }

  function Header(e: Dirent, nameoff: nat): (h: seq<byte>)
    ensures |h| == 12
  {
    EncodeLE(e.nid, 8) + EncodeLE(nameoff, 2) + [e.ftype, 0]
  }

  function Headers(es: seq<Dirent>, nameoff: nat): (h: seq<byte>)
    ensures |h| == 12 * |es|
  {
    if es == [] then [] else Header(es[0], nameoff) + Headers(es[1..], nameoff + |es[0].name|)
  }

  function NameBytes(es: seq<Dirent>): (s: seq<byte>)
    ensures |s| == NamesLen(es)
  {
    if es == [] then [] else es[0].name + NameBytes(es[1..])
  }

  function BlockBytes(es: seq<Dirent>): (s: seq<byte>)
    ensures |s| == Span(es)
  {
    Headers(es, 12 * |es|) + NameBytes(es)
  }

  /** Each entry fits a block of its own. */
  predicate Packable(es: seq<Dirent>) {
    forall i :: 0 <= i < |es| ==> 12 + |es[i].name| <= 4096
  }

  lemma FitPositive(es: seq<Dirent>)
    requires Packable(es) && es != []
    ensures Fit(es, 0) > 0
  {
  }

  /** The blocks of a directory: every block but the last is padded to full size. */
  function DirBytes(es: seq<Dirent>): seq<byte>
    requires Packable(es)
    decreases |es|
  {
    if es == [] then
      []
    else
      var c := Fit(es, 0);
      FitPositive(es);
      if c == |es| then
        BlockBytes(es)
      else
        BlockBytes(es[..c]) + Zeros(4096 - Span(es[..c])) + DirBytes(es[c..])
  }

  // ---------------------------------------------------------------- reader

  function Min(a: nat, b: nat): nat {
    if a < b then a else b
  }

  function BlockCount(size: nat): nat {
    (size + 4096 - 1) / 4096
  }

  /** Block b of directory data; the last one may be short. */
  function BlockAt(data: seq<byte>, b: nat): seq<byte> {
    data[Min(4096 * b, |data|)..Min(4096 * (b + 1), |data|)]
  }

  function NameOff(blk: seq<byte>, k: nat): nat {
    ReadLE(blk, 12 * k + 8, 2)
  }

  /** The first name starts where the records end, which gives their number. */
  function EntryCount(blk: seq<byte>): nat {
    NameOff(blk, 0) / 12
  }

  /** A name runs to the next name offset; the last one to the end or to zero padding. */
  function EntryName(blk: seq<byte>, k: nat): Name {
    var a := NameOff(blk, k);
    if k + 1 < EntryCount(blk) then
      var b := NameOff(blk, k + 1);
      if a <= b <= |blk| then blk[a..b] else []
    else
      if a <= |blk| then UpToNul(blk[a..]) else []
  }

  function EntryNid(blk: seq<byte>, k: nat): nat {
    ReadLE(blk, 12 * k, 8)
  }

  function EntryType(blk: seq<byte>, k: nat): nat {
    ReadLE(blk, 12 * k + 10, 1)
  }

  /** Binary search: how far the keys of [lo, hi) are at most `name`. */
  function Bisect(key: nat -> Name, name: Name, lo: nat, hi: nat): nat
    requires lo <= hi
    decreases hi - lo
  {
    if lo == hi then
      lo
    else
      var mid := (lo + hi) / 2;
      if Lt(name, key(mid)) then Bisect(key, name, lo, mid) else Bisect(key, name, mid + 1, hi)
  }

  datatype Found = Found(nid: nat, ftype: nat)

  function EntryKey(blk: seq<byte>): nat -> Name {
    k => EntryName(blk, k)
  }

  function BlockKey(data: seq<byte>): nat -> Name {
    b => EntryName(BlockAt(data, b), 0)
  }

  function LookupBlock(blk: seq<byte>, name: Name): Option<Found> {
    var k := Bisect(EntryKey(blk), name, 0, EntryCount(blk));
    if k == 0 || EntryName(blk, k - 1) != name then
      None
    else
      Some(Found(EntryNid(blk, k - 1), EntryType(blk, k - 1)))
  }

  function LookupDir(data: seq<byte>, name: Name): Option<Found> {
    var b := Bisect(BlockKey(data), name, 0, BlockCount(|data|));
    LookupAt(data, b, name)
  }

  /** Only the last block whose first name is not after `name` can hold it. */
  function LookupAt(data: seq<byte>, b: nat, name: Name): Option<Found> {
    if b == 0 then None else LookupBlock(BlockAt(data, b - 1), name)
  }

  // ---------------------------------------------------------------- one block decodes

  lemma {:induction false} NamesLenSplit(es: seq<Dirent>, k: nat)
    requires k < |es|
    ensures NamesLen(es[..k + 1]) == NamesLen(es[..k]) + |es[k].name|
    ensures NamesLen(es[..k + 1]) <= NamesLen(es)
  {
    assert es[..k + 1][1..] == es[1..][..k];
    if k > 0 {
      assert es[..k][1..] == es[1..][..k - 1];
      NamesLenSplit(es[1..], k - 1);
    }
  }

  lemma {:induction false} HeadersAt(es: seq<Dirent>, off: nat, k: nat)
    requires k < |es|
    ensures Headers(es, off)[12 * k..12 * k + 12]
            == Header(es[k], off + NamesLen(es[..k]))
  {
    var h := Headers(es, off);
    if k > 0 {
      HeadersAt(es[1..], off + |es[0].name|, k - 1);
      assert es[..k][1..] == es[1..][..k - 1];
      var t := Headers(es[1..], off + |es[0].name|);
      assert h[12 * k..12 * k + 12]
          == t[12 * (k - 1)..12 * (k - 1) + 12];
    }
  }

  lemma {:induction false} NamesAt(es: seq<Dirent>, k: nat)
    requires k < |es|
    ensures NamesLen(es[..k]) + |es[k].name| <= NamesLen(es)
    ensures NameBytes(es)[NamesLen(es[..k])..NamesLen(es[..k]) + |es[k].name|] == es[k].name
    ensures k == |es| - 1 ==> NamesLen(es[..k]) + |es[k].name| == NamesLen(es)
  {
    if k > 0 {
      NamesAt(es[1..], k - 1);
      var a := NamesLen(es[1..][..k - 1]);
      assert es[..k][1..] == es[1..][..k - 1];
      assert NameBytes(es)[|es[0].name| + a..|es[0].name| + a + |es[k].name|]
          == NameBytes(es[1..])[a..a + |es[k].name|];
    }
  }

  /** blk holds the group g, followed by zero padding. */
  ghost predicate HoldsGroup(blk: seq<byte>, g: seq<Dirent>) {
    && 0 < |g| && Span(g) <= 4096 && Span(g) <= |blk|
    && blk == BlockBytes(g) + Zeros(|blk| - Span(g))
  }

  ghost predicate CleanNames(es: seq<Dirent>) {
    forall i :: 0 <= i < |es| ==> 0 !in es[i].name
  }

  lemma SubSlice(s: seq<byte>, o: nat, n: nat, i: nat, j: nat)
    requires o + n <= |s| && i <= j <= n
    ensures s[o + i..o + j] == s[o..o + n][i..j]
  {
    var t := s[o..o + n];
    forall k | 0 <= k < j - i ensures s[o + i..o + j][k] == t[i..j][k] {
    }
  }

  lemma HeaderDecodes(blk: seq<byte>, o: nat, e: Dirent, off: nat)
    requires o + 12 <= |blk| && blk[o..o + 12] == Header(e, off) && off < 0x1_0000
    ensures ReadLE(blk, o, 8) == e.nid % Pow256(8)
    ensures ReadLE(blk, o + 8, 2) == off
    ensures ReadLE(blk, o + 10, 1) == e.ftype
  {
    var h := Header(e, off);
    assert h[..8] == EncodeLE(e.nid, 8);
    SubSlice(blk, o, 12, 0, 8);
    ReadBack(blk, o, e.nid, 8);
    assert h[8..10] == EncodeLE(off, 2);
    SubSlice(blk, o, 12, 8, 10);
    ReadBack(blk, o + 8, off, 2);
    Widths();
    assert EncodeLE(e.ftype, 1) == [e.ftype];
    assert h[10..11] == [e.ftype];
    SubSlice(blk, o, 12, 10, 11);
    ReadBack(blk, o + 10, e.ftype, 1);
  }

  lemma RecordAt(blk: seq<byte>, g: seq<Dirent>, k: nat)
    requires HoldsGroup(blk, g) && k < |g|
    ensures 12 * k + 12 <= |blk|
    ensures blk[12 * k..12 * k + 12] == Header(g[k], 12 * |g| + NamesLen(g[..k]))
    ensures 12 * |g| + NamesLen(g[..k]) + |g[k].name| <= Span(g)
  {
    var h := Headers(g, 12 * |g|);
    HeadersAt(g, 12 * |g|, k);
    NamesAt(g, k);
    assert blk == h + (NameBytes(g) + Zeros(|blk| - Span(g)));
    assert blk[12 * k..12 * k + 12] == h[12 * k..12 * k + 12];
  }

  lemma RecordDecodes(blk: seq<byte>, g: seq<Dirent>, k: nat)
    requires HoldsGroup(blk, g) && k < |g|
    ensures EntryNid(blk, k) == g[k].nid % Pow256(8)
    ensures EntryType(blk, k) == g[k].ftype
    ensures NameOff(blk, k) == 12 * |g| + NamesLen(g[..k])
  {
    RecordAt(blk, g, k);
    HeaderDecodes(blk, 12 * k, g[k], 12 * |g| + NamesLen(g[..k]));
  }

  lemma CountDecodes(blk: seq<byte>, g: seq<Dirent>)
    requires HoldsGroup(blk, g)
    ensures EntryCount(blk) == |g|
  {
    RecordDecodes(blk, g, 0);
  }

  lemma NameBytesAt(blk: seq<byte>, g: seq<Dirent>, k: nat)
    requires HoldsGroup(blk, g) && k < |g|
    ensures 12 * |g| + NamesLen(g[..k]) + |g[k].name| <= Span(g) <= |blk|
    ensures blk[12 * |g| + NamesLen(g[..k])..12 * |g| + NamesLen(g[..k]) + |g[k].name|] == g[k].name
    ensures k == |g| - 1 ==>
              blk[12 * |g| + NamesLen(g[..k])..] == g[k].name + Zeros(|blk| - Span(g))
  {
    NamesAt(g, k);
    var h, ns, a := 12 * |g|, NameBytes(g), NamesLen(g[..k]);
    assert blk[h..] == ns + Zeros(|blk| - Span(g));
    assert blk[h + a..] == blk[h..][a..];
    assert blk[h + a..h + a + |g[k].name|] == ns[a..a + |g[k].name|];
    if k == |g| - 1 {
      assert ns[a..] == ns[a..a + |g[k].name|];
    }
  }

  lemma NameDecodes(blk: seq<byte>, g: seq<Dirent>, k: nat)
    requires HoldsGroup(blk, g) && k < |g| && CleanNames(g)
    ensures EntryName(blk, k) == g[k].name
  {
    CountDecodes(blk, g);
    RecordDecodes(blk, g, k);
    NameBytesAt(blk, g, k);
    if k + 1 < |g| {
      RecordDecodes(blk, g, k + 1);
      NamesLenSplit(g, k);
    } else {
      UpToNulPadded(g[k].name, |blk| - Span(g));
    }
  }

  // ---------------------------------------------------------------- searching

  ghost predicate Ascending(key: nat -> Name, lo: nat, hi: nat) {
    forall i: nat, j: nat :: lo <= i < j < hi ==> Lt(key(i), key(j))
  }

  /** m is where the keys after name begin. */
  ghost predicate SplitsAt(key: nat -> Name, name: Name, lo: nat, hi: nat, m: nat) {
    && lo <= m <= hi
    && (forall i: nat :: lo <= i < m ==> !Lt(name, key(i)))
    && (forall i: nat :: m <= i < hi ==> Lt(name, key(i)))
  }

  lemma SplitsLow(key: nat -> Name, name: Name, lo: nat, hi: nat, mid: nat, m: nat)
    requires lo <= mid < hi && Ascending(key, lo, hi) && Lt(name, key(mid)) && SplitsAt(key, name, lo, mid, m)
    ensures SplitsAt(key, name, lo, hi, m)
  {
    forall i: nat | mid < i < hi ensures Lt(name, key(i)) {
      LtTrans(name, key(mid), key(i));
    }
  }

  lemma SplitsHigh(key: nat -> Name, name: Name, lo: nat, hi: nat, mid: nat, m: nat)
    requires lo <= mid < hi && Ascending(key, lo, hi) && !Lt(name, key(mid)) && SplitsAt(key, name, mid + 1, hi, m)
    ensures SplitsAt(key, name, lo, hi, m)
  {
    forall i: nat | lo <= i < mid ensures !Lt(name, key(i)) {
      if Lt(name, key(i)) {
        LtTrans(name, key(i), key(mid));
      }
    }
  }

  lemma {:induction false} BisectSplits(key: nat -> Name, name: Name, lo: nat, hi: nat)
    requires lo <= hi && Ascending(key, lo, hi)
    ensures SplitsAt(key, name, lo, hi, Bisect(key, name, lo, hi))
    decreases hi - lo
  {
    if lo < hi {
      var mid := (lo + hi) / 2;
      if Lt(name, key(mid)) {
        BisectSplits(key, name, lo, mid);
        SplitsLow(key, name, lo, hi, mid, Bisect(key, name, lo, mid));
      } else {
        BisectSplits(key, name, mid + 1, hi);
        SplitsHigh(key, name, lo, hi, mid, Bisect(key, name, mid + 1, hi));
      }
    }
  }

  ghost predicate SortedNames(es: seq<Dirent>) {
    forall i, j :: 0 <= i < j < |es| ==> Lt(es[i].name, es[j].name)
  }

  /** The reference lookup: scan the entries from the front. */
  function Scan(es: seq<Dirent>, name: Name): Option<Dirent> {
    if es == [] then None else if es[0].name == name then Some(es[0]) else Scan(es[1..], name)
  }

  lemma {:induction false} ScanFinds(es: seq<Dirent>, name: Name, k: nat)
    requires SortedNames(es) && k < |es| && es[k].name == name
    ensures Scan(es, name) == Some(es[k])
  {
    if k > 0 {
      LtIrrefl(name);
      ScanFinds(es[1..], name, k - 1);
    }
  }

  lemma {:induction false} ScanMisses(es: seq<Dirent>, name: Name)
    requires forall k :: 0 <= k < |es| ==> es[k].name != name
    ensures Scan(es, name) == None
  {
    if es != [] {
      ScanMisses(es[1..], name);
    }
  }

  function AsFound(d: Option<Dirent>): Option<Found> {
    match d
    case None => None
    case Some(e) => Some(Found(e.nid % Pow256(8), e.ftype))
  }

  lemma NotThere(key: nat -> Name, es: seq<Dirent>, name: Name, k: nat, i: nat)
    requires SortedNames(es) && forall j: nat :: j < |es| ==> key(j) == es[j].name
    requires k <= |es| && i < |es| && i + 1 != k
    requires k > 0 ==> !Lt(name, key(k - 1))
    requires i >= k ==> Lt(name, key(i))
    ensures es[i].name != name
  {
    LtIrrefl(name);
    if i + 1 < k {
      assert Lt(es[i].name, es[k - 1].name);
    }
  }

  lemma KeysAscend(key: nat -> Name, es: seq<Dirent>)
    requires SortedNames(es) && forall k: nat :: k < |es| ==> key(k) == es[k].name
    ensures Ascending(key, 0, |es|)
  {
  }

  /** A name that only one entry can have is scanned for in that entry alone. */
  lemma ScanAlone(es: seq<Dirent>, name: Name, k: nat)
    requires SortedNames(es) && k <= |es| && forall i: nat :: i < |es| && i + 1 != k ==> es[i].name != name
    ensures Scan(es, name) == if k == 0 || es[k - 1].name != name then None else Some(es[k - 1])
  {
    if k > 0 && es[k - 1].name == name {
      ScanFinds(es, name, k - 1);
    } else {
      ScanMisses(es, name);
    }
  }

  /** Over sorted entries, the bisection stops right after the only entry a scan could find. */
  lemma BisectScans(key: nat -> Name, es: seq<Dirent>, name: Name)
    requires SortedNames(es) && forall k: nat :: k < |es| ==> key(k) == es[k].name
    ensures var k := Bisect(key, name, 0, |es|);
            k <= |es| && Scan(es, name) == if k == 0 || es[k - 1].name != name then None else Some(es[k - 1])
  {
    KeysAscend(key, es);
    BisectSplits(key, name, 0, |es|);
    var k := Bisect(key, name, 0, |es|);
    forall i: nat | i < |es| && i + 1 != k ensures es[i].name != name {
      NotThere(key, es, name, k, i);
    }
    ScanAlone(es, name, k);
  }

  lemma KeysDecode(blk: seq<byte>, g: seq<Dirent>) returns (key: nat -> Name)
    requires HoldsGroup(blk, g) && CleanNames(g)
    ensures key == EntryKey(blk) && forall k: nat :: k < |g| ==> key(k) == g[k].name
  {
    key := EntryKey(blk);
    forall k: nat | k < |g| ensures key(k) == g[k].name {
      NameDecodes(blk, g, k);
    }
  }

  lemma LookupBlockOk(blk: seq<byte>, g: seq<Dirent>, name: Name)
    requires HoldsGroup(blk, g) && CleanNames(g) && SortedNames(g)
    ensures LookupBlock(blk, name) == AsFound(Scan(g, name))
  {
    CountDecodes(blk, g);
    var key := KeysDecode(blk, g);
    BisectScans(key, g, name);
    var k := Bisect(key, name, 0, |g|);
    if k > 0 {
      assert EntryName(blk, k - 1) == key(k - 1);
      RecordDecodes(blk, g, k - 1);
    }
  }

  // ---------------------------------------------------------------- groups

  /** How the greedy packer divides the entries into blocks. */
  function Groups(es: seq<Dirent>): seq<seq<Dirent>>
    requires Packable(es)
    decreases |es|
  {
    if es == [] then
      []
    else
      var c := Fit(es, 0);
      FitPositive(es);
      [es[..c]] + Groups(es[c..])
  }

  /** The index in es of the first entry of group b. */
  function GroupStart(es: seq<Dirent>, b: nat): (s: nat)
    requires Packable(es) && b <= |Groups(es)|
    ensures s <= |es|
    decreases |es|
  {
    if b == 0 then 0 else
      var c := Fit(es, 0);
      FitPositive(es);
      c + GroupStart(es[c..], b - 1)
  }

  /** The first group, and what the rest is. */
  lemma GroupsStep(es: seq<Dirent>, b: nat) returns (c: nat, rest: seq<Dirent>)
    requires Packable(es) && es != [] && 0 < b <= |Groups(es)|
    ensures 0 < c <= |es| && c == Fit(es, 0) && rest == es[c..] && Packable(rest)
    ensures Groups(es) == [es[..c]] + Groups(rest)
    ensures GroupStart(es, b) == c + GroupStart(rest, b - 1)
  {
    FitPositive(es);
    c := Fit(es, 0);
    rest := es[c..];
  }

  lemma SliceShift(es: seq<Dirent>, c: nat, i: nat, j: nat)
    requires c <= |es| && i <= j <= |es| - c
    ensures es[c..][i..j] == es[c + i..c + j]
  {
  }

  lemma FirstGroup(es: seq<Dirent>)
    requires Packable(es) && es != []
    ensures |Groups(es)| > 0 && GroupStart(es, 0) == 0 && 0 < GroupStart(es, 1) <= |es|
    ensures Groups(es)[0] == es[GroupStart(es, 0)..GroupStart(es, 1)]
  {
    var c, rest := GroupsStep(es, 1);
  }

  lemma GroupShift(es: seq<Dirent>, b: nat, rest: seq<Dirent>)
    requires Packable(es) && es != [] && 0 < b < |Groups(es)| && rest == es[Fit(es, 0)..] && Packable(rest)
    ensures b - 1 < |Groups(rest)| && Groups(es)[b] == Groups(rest)[b - 1]
  {
    var c, _ := GroupsStep(es, b);
  }

  lemma Shifted(es: seq<Dirent>, c: nat, rest: seq<Dirent>, g: seq<Dirent>, lo: nat, hi: nat, start: nat, end: nat)
    requires c <= |es| && rest == es[c..] && lo < hi <= |rest| && g == rest[lo..hi] && start == c + lo && end == c + hi
    ensures start < end <= |es| && g == es[start..end]
  {
    SliceShift(es, c, lo, hi);
  }

  lemma {:induction false} GroupIsSlice(es: seq<Dirent>, b: nat)
    requires Packable(es) && b < |Groups(es)|
    ensures GroupStart(es, b) < GroupStart(es, b + 1)
    ensures Groups(es)[b] == es[GroupStart(es, b)..GroupStart(es, b + 1)]
    decreases |es|
  {
    if b == 0 {
      FirstGroup(es);
    } else {
      var c, rest, start, end := StartShift(es, b);
      GroupIsSlice(rest, b - 1);
      GroupShift(es, b, rest);
      Shifted(es, c, rest, Groups(rest)[b - 1], GroupStart(rest, b - 1), GroupStart(rest, b), start, end);
    }
  }

  lemma StartShift(es: seq<Dirent>, b: nat) returns (c: nat, rest: seq<Dirent>, start: nat, end: nat)
    requires Packable(es) && es != [] && 0 < b < |Groups(es)|
    ensures 0 < c <= |es| && c == Fit(es, 0) && rest == es[c..] && Packable(rest) && b - 1 < |Groups(rest)|
    ensures start == GroupStart(es, b) == c + GroupStart(rest, b - 1)
    ensures end == GroupStart(es, b + 1) == c + GroupStart(rest, b)
  {
    c, rest := GroupsStep(es, b);
    var _, _ := GroupsStep(es, b + 1);
    start, end := GroupStart(es, b), GroupStart(es, b + 1);
  }

  lemma {:induction false} StartAll(es: seq<Dirent>)
    requires Packable(es)
    ensures GroupStart(es, |Groups(es)|) == |es|
    decreases |es|
  {
    if es != [] {
      FitPositive(es);
      StartAll(es[Fit(es, 0)..]);
    }
  }

  lemma {:induction false} StartMonotone(es: seq<Dirent>, b: nat, b': nat)
    requires Packable(es) && b <= b' <= |Groups(es)|
    ensures GroupStart(es, b) <= GroupStart(es, b')
    decreases b' - b
  {
    if b < b' {
      GroupIsSlice(es, b);
      StartMonotone(es, b + 1, b');
    }
  }

  lemma HeadBlock(head: seq<byte>, tail: seq<byte>, b: nat)
    requires |head| == 4096
    ensures BlockAt(head + tail, 0) == head
    ensures BlockAt(head + tail, b + 1) == BlockAt(tail, b)
    ensures BlockCount(|head + tail|) == 1 + BlockCount(|tail|)
  {
  }

  lemma OneBlock(es: seq<Dirent>)
    requires Packable(es) && es != [] && Fit(es, 0) == |es|
    ensures Groups(es) == [es] && DirBytes(es) == BlockBytes(es)
    ensures BlockCount(|DirBytes(es)|) == 1 && HoldsGroup(BlockAt(DirBytes(es), 0), es)
  {
    assert es[..|es|] == es && es[|es|..] == [];
    assert Zeros(0) == [];
  }

  lemma FirstBlock(es: seq<Dirent>) returns (c: nat, head: seq<byte>, tail: seq<byte>)
    requires Packable(es) && es != [] && Fit(es, 0) < |es|
    ensures c == Fit(es, 0) && Packable(es[c..]) && tail == DirBytes(es[c..])
    ensures Groups(es) == [es[..c]] + Groups(es[c..])
    ensures DirBytes(es) == head + tail && |head| == 4096 && HoldsGroup(head, es[..c])
  {
    FitPositive(es);
    c := Fit(es, 0);
    head, tail := BlockBytes(es[..c]) + Zeros(4096 - Span(es[..c])), DirBytes(es[c..]);
  }

  /** Block b of the directory's data holds group b, and there is one block per group. */
  lemma {:induction false} BlocksAreGroups(es: seq<Dirent>, b: nat)
    requires Packable(es)
    ensures BlockCount(|DirBytes(es)|) == |Groups(es)|
    ensures b < |Groups(es)| ==> HoldsGroup(BlockAt(DirBytes(es), b), Groups(es)[b])
    decreases |es|
  {
    if es != [] {
      FitPositive(es);
      if Fit(es, 0) == |es| {
        OneBlock(es);
      } else {
        var c, head, tail := FirstBlock(es);
        BlocksAreGroups(es[c..], if b == 0 then 0 else b - 1);
        HeadBlock(head, tail, if b == 0 then 0 else b - 1);
      }
    }
  }

  lemma StartInside(es: seq<Dirent>, b: nat)
    requires Packable(es) && b < |Groups(es)|
    ensures GroupStart(es, b) < |es|
  {
    GroupIsSlice(es, b);
  }

  ghost function FirstName(es: seq<Dirent>, b: nat): Name
    requires Packable(es) && b < |Groups(es)|
  {
    StartInside(es, b);
    es[GroupStart(es, b)].name
  }

  /** The group whose first name is the last one not after `name` is where a scan would stop. */
  lemma ScanInGroup(es: seq<Dirent>, name: Name, b: nat)
    requires Packable(es) && SortedNames(es) && b <= |Groups(es)|
    requires b > 0 ==> !Lt(name, FirstName(es, b - 1))
    requires b < |Groups(es)| ==> Lt(name, FirstName(es, b))
    ensures Scan(es, name) == if b == 0 then None else Scan(Groups(es)[b - 1], name)
  {
    var hi := GroupStart(es, b);
    AboveGroup(es, name, b);
    if b == 0 {
      ScanMisses(es, name);
    } else {
      GroupIsSlice(es, b - 1);
      var lo, g := GroupStart(es, b - 1), Groups(es)[b - 1];
      BelowGroup(es, name, lo);
      ScanSlice(es, name, lo, hi);
    }
  }

  lemma BelowGroup(es: seq<Dirent>, name: Name, lo: nat)
    requires SortedNames(es) && lo < |es| && !Lt(name, es[lo].name)
    ensures forall k: nat :: k < lo ==> es[k].name != name
  {
    forall k: nat | k < lo ensures es[k].name != name {
      assert Lt(es[k].name, es[lo].name);
    }
  }

  lemma AboveGroup(es: seq<Dirent>, name: Name, b: nat)
    requires Packable(es) && SortedNames(es) && b <= |Groups(es)|
    requires b < |Groups(es)| ==> Lt(name, FirstName(es, b))
    ensures forall k: nat :: GroupStart(es, b) <= k < |es| ==> es[k].name != name
  {
    StartAll(es);
    var hi := GroupStart(es, b);
    LtIrrefl(name);
    forall k: nat | hi <= k < |es| ensures es[k].name != name {
      if k > hi {
        assert Lt(es[hi].name, es[k].name);
        LtTrans(name, es[hi].name, es[k].name);
      }
    }
  }

  lemma ScanSlice(es: seq<Dirent>, name: Name, lo: nat, hi: nat)
    requires SortedNames(es) && lo <= hi <= |es|
    requires forall k: nat :: k < lo ==> es[k].name != name
    requires forall k: nat :: hi <= k < |es| ==> es[k].name != name
    ensures Scan(es, name) == Scan(es[lo..hi], name)
  {
    var g := es[lo..hi];
    if k: nat :| k < |g| && g[k].name == name {
      ScanFinds(g, name, k);
      ScanFinds(es, name, lo + k);
    } else {
      ScanMisses(g, name);
      forall k: nat | lo <= k < hi ensures es[k].name != name {
        assert es[k] == g[k - lo];
      }
      ScanMisses(es, name);
    }
  }

  lemma FirstNameDecodes(es: seq<Dirent>, b: nat)
    requires Packable(es) && CleanNames(es) && b < |Groups(es)|
    ensures BlockKey(DirBytes(es))(b) == FirstName(es, b)
  {
    BlocksAreGroups(es, b);
    GroupIsSlice(es, b);
    StartInside(es, b);
    NameDecodes(BlockAt(DirBytes(es), b), Groups(es)[b], 0);
  }

  lemma FirstNameAscends(es: seq<Dirent>, i: nat, j: nat)
    requires Packable(es) && SortedNames(es) && i < j < |Groups(es)|
    ensures Lt(FirstName(es, i), FirstName(es, j))
  {
    GroupIsSlice(es, i);
    StartMonotone(es, i + 1, j);
    StartInside(es, j);
  }

  lemma BisectBlocks(es: seq<Dirent>, name: Name) returns (b: nat)
    requires Packable(es) && CleanNames(es) && SortedNames(es)
    ensures b <= |Groups(es)|
    ensures b > 0 ==> !Lt(name, FirstName(es, b - 1))
    ensures b < |Groups(es)| ==> Lt(name, FirstName(es, b))
    ensures LookupDir(DirBytes(es), name) == LookupAt(DirBytes(es), b, name)
  {
    var key, n := BlockKey(DirBytes(es)), |Groups(es)|;
    BlocksAreGroups(es, 0);
    forall b: nat | b < n ensures key(b) == FirstName(es, b) {
      FirstNameDecodes(es, b);
    }
    forall i: nat, j: nat | i < j < n ensures Lt(key(i), key(j)) {
      FirstNameAscends(es, i, j);
    }
    BisectSplits(key, name, 0, n);
    b := Bisect(key, name, 0, n);
    assert b > 0 ==> !Lt(name, key(b - 1));
    assert b < n ==> Lt(name, key(b));
  }

  lemma SliceSorted(es: seq<Dirent>, lo: nat, hi: nat)
    requires CleanNames(es) && SortedNames(es) && lo <= hi <= |es|
    ensures CleanNames(es[lo..hi]) && SortedNames(es[lo..hi])
  {
    forall i | 0 <= i < hi - lo ensures es[lo..hi][i] == es[lo + i] {
    }
  }

  lemma BlockOf(es: seq<Dirent>, b: nat) returns (blk: seq<byte>, g: seq<Dirent>)
    requires Packable(es) && CleanNames(es) && SortedNames(es) && b < |Groups(es)|
    ensures blk == BlockAt(DirBytes(es), b) && g == Groups(es)[b]
    ensures HoldsGroup(blk, g) && CleanNames(g) && SortedNames(g)
  {
    BlocksAreGroups(es, b);
    GroupIsSlice(es, b);
    blk, g := BlockAt(DirBytes(es), b), Groups(es)[b];
    SliceSorted(es, GroupStart(es, b), GroupStart(es, b + 1));
  }

  lemma LookupGroup(es: seq<Dirent>, name: Name, b: nat)
    requires Packable(es) && CleanNames(es) && SortedNames(es) && 0 < b <= |Groups(es)|
    ensures LookupAt(DirBytes(es), b, name) == AsFound(Scan(Groups(es)[b - 1], name))
  {
    var blk, g := BlockOf(es, b - 1);
    LookupBlockOk(blk, g, name);
  }

  lemma LookupAtOk(es: seq<Dirent>, name: Name, b: nat)
    requires Packable(es) && CleanNames(es) && SortedNames(es) && b <= |Groups(es)|
    requires b > 0 ==> !Lt(name, FirstName(es, b - 1))
    requires b < |Groups(es)| ==> Lt(name, FirstName(es, b))
    ensures LookupAt(DirBytes(es), b, name) == AsFound(Scan(es, name))
  {
    ScanInGroup(es, name, b);
    if b > 0 {
      LookupGroup(es, name, b);
    }
  }

  /** Looking a name up in packed directory data is exactly a scan of the directory's entries. */
  lemma LookupDirOk(es: seq<Dirent>, name: Name)
    requires Packable(es) && CleanNames(es) && SortedNames(es)
    ensures LookupDir(DirBytes(es), name) == AsFound(Scan(es, name))
  {
    var b := BisectBlocks(es, name);
    LookupAtOk(es, name, b);
  }
}
