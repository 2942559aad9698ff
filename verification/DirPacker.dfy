/** The directory packer: dirents into byte buffers, block by block. */
module DirPacker {
  import opened Bytes
  import opened DirFormat

  /** Write the low k bytes of n at off: binary.LittleEndian.PutUint16/64. */
  method PutLE(a: array<byte>, off: nat, n: nat, k: nat)
    requires off + k <= a.Length
    modifies a
    ensures a[..] == old(a[..off]) + EncodeLE(n, k) + old(a[off + k..])
  {
    var rest := n;
    var i := 0;
    assert a[..off] + [] == a[..off];
    while i < k
      invariant 0 <= i <= k && rest >= 0
      invariant EncodeLE(n, k) == a[off..off + i] + EncodeLE(rest, k - i)
      invariant a[..off] == old(a[..off]) && a[off + k..] == old(a[off + k..])
    {
      a[off + i] := rest % 256;
      assert a[off..off + i + 1] == a[off..off + i] + [rest % 256];
      rest := rest / 256;
      i := i + 1;
    }
    assert a[..] == a[..off] + a[off..off + k] + a[off + k..];
  }

  method CopyInto(a: array<byte>, off: nat, s: seq<byte>)
    requires off + |s| <= a.Length
    modifies a
    ensures a[..] == old(a[..off]) + s + old(a[off + |s|..])
  {
    for i := 0 to |s|
      invariant a[..off] == old(a[..off]) && a[off + |s|..] == old(a[off + |s|..])
      invariant a[off..off + i] == s[..i]
    {
      a[off + i] := s[i];
      assert a[off..off + i + 1] == a[off..off + i] + [s[i]];
    }
    assert a[..] == a[..off] + a[off..off + |s|] + a[off + |s|..];
  }

  function Splice(s: seq<byte>, off: nat, part: seq<byte>): (r: seq<byte>)
    requires off + |part| <= |s|
    ensures |r| == |s|
  {
    s[..off] + part + s[off + |part|..]
  }

  /** One 12-byte record; its last byte is never written and stays zero. */
  method PutRecord(blk: array<byte>, o: nat, e: Dirent, nameoff: nat)
    requires o + 12 <= blk.Length && blk[o + 11] == 0
    modifies blk
    ensures blk[..] == Splice(old(blk[..]), o, Header(e, nameoff))
  {
    ghost var before := blk[..];
    PutLE(blk, o, e.nid, 8);
    ghost var one := blk[..];
    PutLE(blk, o + 8, nameoff, 2);
    ghost var two := blk[..];
    assert two == one[..o + 8] + EncodeLE(nameoff, 2) + one[o + 10..];
    blk[o + 10] := e.ftype;
    RecordBytes(before, one, two, blk[..], o, e, nameoff);
  }

  lemma RecordBytes(before: seq<byte>, one: seq<byte>, two: seq<byte>, three: seq<byte>, o: nat, e: Dirent,
                    nameoff: nat)
    requires |before| == |one| == |two| == |three| && o + 12 <= |before| && before[o + 11] == 0
    requires one == before[..o] + EncodeLE(e.nid, 8) + before[o + 8..]
    requires two == one[..o + 8] + EncodeLE(nameoff, 2) + one[o + 10..]
    requires three == two[o + 10 := e.ftype]
    ensures three == Splice(before, o, Header(e, nameoff))
  {
    var r := Splice(before, o, Header(e, nameoff));
    forall i | 0 <= i < |three| ensures three[i] == r[i] {
      assert i < o || i >= o + 12 ==> one[i] == before[i] && two[i] == one[i];
    }
  }

  /** The buffer of a block for the group g once its first k entries were written. */
  function Partial(g: seq<Dirent>, k: nat): (s: seq<byte>)
    requires k <= |g| && Span(g) <= 4096
    ensures |s| == 4096
  {
    NamesLenPrefix(g, k);
    Headers(g[..k], 12 * |g|) + Zeros(12 * (|g| - k)) + NameBytes(g[..k])
    + Zeros(4096 - 12 * |g| - NamesLen(g[..k]))
  }

  lemma {:induction false} NamesLenPrefix(g: seq<Dirent>, k: nat)
    requires k <= |g|
    ensures NamesLen(g[..k]) <= NamesLen(g)
  {
    if k > 0 {
      NamesLenSplit(g, k - 1);
    }
  }

  lemma {:induction false} HeadersSnoc(g: seq<Dirent>, k: nat, off: nat)
    requires k < |g|
    ensures Headers(g[..k + 1], off) == Headers(g[..k], off) + Header(g[k], off + NamesLen(g[..k]))
  {
    assert g[..k + 1][1..] == g[1..][..k];
    if k > 0 {
      assert g[..k][1..] == g[1..][..k - 1];
      HeadersSnoc(g[1..], k - 1, off + |g[0].name|);
    } else {
      assert Headers(g[1..][..0], off + |g[0].name|) == [];
    }
  }

  lemma {:induction false} NamesSnoc(g: seq<Dirent>, k: nat)
    requires k < |g|
    ensures NameBytes(g[..k + 1]) == NameBytes(g[..k]) + g[k].name
  {
    assert g[..k + 1][1..] == g[1..][..k];
    if k > 0 {
      assert g[..k][1..] == g[1..][..k - 1];
      NamesSnoc(g[1..], k - 1);
    } else {
      assert NameBytes(g[1..][..0]) == [];
    }
  }

  /** Four adjacent pieces, of which the second and the last shrink to make room. */
  lemma SpliceTwice(a: seq<byte>, z: nat, b: seq<byte>, y: nat, h: seq<byte>, n: seq<byte>)
    requires |h| <= z && |n| <= y
    ensures var s := a + Zeros(z) + b + Zeros(y);
            Splice(Splice(s, |a|, h), |a| + z + |b|, n)
            == (a + h) + Zeros(z - |h|) + (b + n) + Zeros(y - |n|)
  {
    var s := a + Zeros(z) + b + Zeros(y);
    assert Splice(s, |a|, h) == (a + h) + Zeros(z - |h|) + b + Zeros(y);
  }

  /** The pieces of a half-filled block, and how the next entry extends two of them. */
  lemma PartialPieces(g: seq<Dirent>, k: nat)
    returns (a: seq<byte>, z: nat, b: seq<byte>, y: nat, h: seq<byte>, n: seq<byte>)
    requires k < |g| && Span(g) <= 4096
    ensures |a| == 12 * k && |a| + z + |b| == 12 * |g| + NamesLen(g[..k]) && |h| <= z && |n| <= y
    ensures |a| + z + |b| + y == 4096
    ensures Partial(g, k) == a + Zeros(z) + b + Zeros(y)
    ensures Partial(g, k + 1) == (a + h) + Zeros(z - |h|) + (b + n) + Zeros(y - |n|)
    ensures h == Header(g[k], 12 * |g| + NamesLen(g[..k])) && n == g[k].name
  {
    NamesLenSplit(g, k);
    NamesLenPrefix(g, k + 1);
    HeadersSnoc(g, k, 12 * |g|);
    NamesSnoc(g, k);
    a, z := Headers(g[..k], 12 * |g|), 12 * (|g| - k);
    b, y := NameBytes(g[..k]), 4096 - 12 * |g| - NamesLen(g[..k]);
    h, n := Header(g[k], 12 * |g| + NamesLen(g[..k])), g[k].name;
    assert z - |h| == 12 * (|g| - (k + 1)) && y - |n| == 4096 - 12 * |g| - NamesLen(g[..k + 1]);
  }

  lemma PartialStep(g: seq<Dirent>, k: nat, nameoff: nat)
    requires k < |g| && Span(g) <= 4096 && nameoff == 12 * |g| + NamesLen(g[..k])
    ensures nameoff + |g[k].name| <= 4096
    ensures Splice(Splice(Partial(g, k), 12 * k, Header(g[k], nameoff)), nameoff, g[k].name) == Partial(g, k + 1)
  {
    var a, z, b, y, h, n := PartialPieces(g, k);
    SpliceTwice(a, z, b, y, h, n);
  }

  lemma ReservedZero(g: seq<Dirent>, k: nat)
    requires k < |g| && Span(g) <= 4096
    ensures Partial(g, k)[12 * k + 11] == 0
  {
  }

  lemma PartialEnds(g: seq<Dirent>)
    requires Span(g) <= 4096
    ensures Partial(g, 0) == Zeros(4096) && Partial(g, |g|)[..Span(g)] == BlockBytes(g)
  {
    assert g[..|g|] == g && g[..0] == [];
    assert Zeros(12 * |g|) + [] + Zeros(4096 - 12 * |g|) == Zeros(4096);
    assert Partial(g, |g|) == BlockBytes(g) + Zeros(4096 - Span(g));
  }

  /** The k-th entry's record and name. */
  method PutEntry(buf: array<byte>, g: seq<Dirent>, k: nat, nameoff: nat)
    requires buf.Length == 4096 && k < |g| && Span(g) <= 4096
    requires buf[..] == Partial(g, k) && nameoff == 12 * |g| + NamesLen(g[..k])
    modifies buf
    ensures buf[..] == Partial(g, k + 1)
  {
    ReservedZero(g, k);
    PartialStep(g, k, nameoff);
    PutRecord(buf, 12 * k, g[k], nameoff);
    ghost var mid := buf[..];
    CopyInto(buf, nameoff, g[k].name);
    assert buf[..] == Splice(mid, nameoff, g[k].name);
  }

  /** Fill one block's buffer with the group g. */
  method PackBlock(g: seq<Dirent>) returns (blk: seq<byte>)
    requires Span(g) <= 4096
    ensures blk == BlockBytes(g)
  {
    var buf := new byte[4096](_ => 0);
    var nameoff := 12 * |g|;
    PartialEnds(g);
    assert buf[..] == Zeros(4096);
    assert g[..0] == [];
    for k := 0 to |g|
      invariant buf[..] == Partial(g, k) && nameoff == 12 * |g| + NamesLen(g[..k])
    {
      PutEntry(buf, g, k, nameoff);
      NamesLenSplit(g, k);
      nameoff := nameoff + |g[k].name|;
    }
    assert g[..|g|] == g;
    blk := buf[..nameoff];
    assert blk == buf[..][..nameoff];
  }

  /** The greedy count of entries from i on that fit one block. */
  method CountFitting(es: seq<Dirent>, i: nat) returns (count: nat)
    requires i <= |es|
    ensures count == Fit(es[i..], 0)
  {
    var used: nat := 0;
    count := 0;
    var j := i;
    while j < |es|
      invariant i <= j <= |es| && count == j - i
      invariant Fit(es[i..], 0) == count + Fit(es[j..], used)
    {
      var need := used + 12 + |es[j].name|;
      assert es[j..][1..] == es[j + 1..];
      if need > 4096 {
        break;
      }
      used := need;
      count := count + 1;
      j := j + 1;
    }
  }

  lemma {:induction false} EntryWithinSpan(g: seq<Dirent>, k: nat)
    requires k < |g|
    ensures 12 + |g[k].name| <= Span(g)
  {
    if k > 0 {
      EntryWithinSpan(g[1..], k - 1);
    }
  }

  lemma PackableTail(es: seq<Dirent>, c: nat)
    requires c <= |es| && Span(es[..c]) <= 4096
    ensures Packable(es) <==> Packable(es[c..])
  {
    if Packable(es[c..]) {
      forall i | 0 <= i < |es| ensures 12 + |es[i].name| <= 4096 {
        if i < c {
          EntryWithinSpan(es[..c], i);
        } else {
          assert es[i] == es[c..][i - c];
        }
      }
    }
  }

  /** Taking one greedy group off the front. */
  lemma GroupsCons(es: seq<Dirent>) returns (g: seq<Dirent>, tail: seq<Dirent>)
    requires es != []
    ensures g == es[..Fit(es, 0)] && tail == es[Fit(es, 0)..] && Span(g) <= 4096
    ensures g == [] ==> !Packable(es)
    ensures g != [] ==> (Packable(es) <==> Packable(tail))
    ensures g != [] && Packable(es) ==> Groups(es) == [g] + Groups(tail)
  {
    var c := Fit(es, 0);
    g, tail := es[..c], es[c..];
    PackableTail(es, c);
    if Packable(es) {
      FitPositive(es);
    }
  }

  /** gs are the groups taken so far; rest is still to be packed. */
  ghost predicate TakenSoFar(es: seq<Dirent>, gs: seq<seq<Dirent>>, rest: seq<Dirent>) {
    && (Packable(es) <==> Packable(rest))
    && (Packable(es) ==> Groups(es) == gs + Groups(rest))
  }

  lemma TakeGroup(es: seq<Dirent>, gs: seq<seq<Dirent>>, rest: seq<Dirent>) returns (g: seq<Dirent>, tail: seq<Dirent>)
    requires TakenSoFar(es, gs, rest) && rest != []
    ensures g == rest[..Fit(rest, 0)] && tail == rest[Fit(rest, 0)..] && Span(g) <= 4096
    ensures if g == [] then !Packable(es) else TakenSoFar(es, gs + [g], tail)
  {
    g, tail := GroupsCons(rest);
    if Packable(es) && g != [] {
      assert gs + ([g] + Groups(tail)) == (gs + [g]) + Groups(tail);
    }
  }

  lemma SliceAt(es: seq<Dirent>, i: nat, count: nat)
    requires i <= |es| && count <= |es[i..]|
    ensures i + count <= |es| && es[i..][..count] == es[i..i + count] && es[i..][count..] == es[i + count..]
  {
  }

  lemma NextGroup(es: seq<Dirent>, i: nat, gs: seq<seq<Dirent>>, count: nat) returns (g: seq<Dirent>, tail: seq<Dirent>)
    requires i < |es| && TakenSoFar(es, gs, es[i..]) && count == Fit(es[i..], 0)
    ensures i + count <= |es| && g == es[i..i + count] && tail == es[i + count..] && Span(g) <= 4096
    ensures if count == 0 then !Packable(es) else TakenSoFar(es, gs + [g], tail)
  {
    g, tail := TakeGroup(es, gs, es[i..]);
    SliceAt(es, i, count);
  }

  /** The next greedy group, packed, or a failure if not even one entry fits. */
  method PackNext(es: seq<Dirent>, i: nat, ghost gs: seq<seq<Dirent>>)
    returns (next: nat, blk: seq<byte>, ghost g: seq<Dirent>, ghost tail: seq<Dirent>)
    requires i < |es| && TakenSoFar(es, gs, es[i..])
    ensures i <= next <= |es| && tail == es[next..]
    ensures if next == i then !Packable(es) else TakenSoFar(es, gs + [g], tail) && blk == BlockBytes(g)
  {
    var count := CountFitting(es, i);
    g, tail := NextGroup(es, i, gs, count);
    next, blk := i + count, [];
    if count > 0 {
      blk := PackBlock(es[i..i + count]);
    }
  }

  /** Pack sorted entries into blocks; the only failure is an entry too large for a block. */
  method PackDir(es: seq<Dirent>) returns (ok: bool, blocks: seq<seq<byte>>)
    ensures ok <==> Packable(es)
    ensures ok ==> |blocks| == |Groups(es)| && forall b :: 0 <= b < |blocks| ==> blocks[b] == BlockBytes(Groups(es)[b])
  {
    blocks := [];
    ghost var gs: seq<seq<Dirent>> := [];
    var i := 0;
    assert es[0..] == es;
    while i < |es|
      invariant 0 <= i <= |es| && TakenSoFar(es, gs, es[i..])
      invariant |blocks| == |gs| && forall b :: 0 <= b < |blocks| ==> blocks[b] == BlockBytes(gs[b])
      decreases |es| - i
    {
      var next, blk, g, tail := PackNext(es, i, gs);
      if next == i {
        return false, blocks;
      }
      blocks, gs, i := blocks + [blk], gs + [g], next;
    }
    assert es[|es|..] == [];
    ok := true;
  }

  function PadOf(g: seq<Dirent>): nat {
    if Span(g) <= 4096 then 4096 - Span(g) else 0
  }

  /** The blocks one after the other, all but the last padded. */
  function JoinGroups(gs: seq<seq<Dirent>>): seq<byte> {
    if gs == [] then []
    else if |gs| == 1 then BlockBytes(gs[0])
    else BlockBytes(gs[0]) + Zeros(PadOf(gs[0])) + JoinGroups(gs[1..])
  }

  lemma {:induction false} DirBytesJoin(es: seq<Dirent>)
    requires Packable(es)
    ensures DirBytes(es) == JoinGroups(Groups(es))
    ensures forall b :: 0 <= b < |Groups(es)| ==> Span(Groups(es)[b]) <= 4096
    decreases |es|
  {
    if es != [] {
      FitPositive(es);
      var c := Fit(es, 0);
      var g, tail := es[..c], es[c..];
      assert Groups(es) == [g] + Groups(tail) && Span(g) <= 4096;
      DirBytesJoin(tail);
      if c < |es| {
        assert Groups(tail) != [];
        assert Groups(es)[1..] == Groups(tail);
      } else {
        assert g == es && Groups(tail) == [];
      }
    }
  }

  lemma JoinStep(gs: seq<seq<Dirent>>, b: nat) returns (pad: nat, rest: seq<byte>)
    requires b < |gs|
    ensures JoinGroups(gs[b..]) == BlockBytes(gs[b]) + Zeros(pad) + rest && rest == JoinGroups(gs[b + 1..])
    ensures if b == |gs| - 1 then pad == 0 && rest == [] else pad == PadOf(gs[b])
  {
    assert gs[b..][1..] == gs[b + 1..];
    pad, rest := if b == |gs| - 1 then 0 else PadOf(gs[b]), JoinGroups(gs[b + 1..]);
  }

  lemma Regroup(a: seq<byte>, b: seq<byte>, c: seq<byte>, d: seq<byte>)
    ensures a + (b + c + d) == ((a + b) + c) + d
    ensures c == [] ==> a + (b + c + d) == (a + b) + d
  {
    assert c == [] ==> (a + b) + c == a + b;
  }
}
