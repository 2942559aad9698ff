/**
 The harness's side of the device plan: C strings cut in place, fixed arrays, and the
 order in which disks and shares are attached.
 */
module PodvmArgs {
  import opened Wrappers
  import opened FlowKey

  const NUL: char := '\0'

  // ---------------------------------------------------------------- C strings in a buffer

  /** s is the C string at offset off of a buffer's contents. */
  predicate StringAt(buf: seq<char>, off: nat, s: string) {
    off + |s| < |buf| && buf[off + |s|] == NUL && forall i :: 0 <= i < |s| ==> buf[off + i] == s[i] && s[i] != NUL
  }

  /** Where c first occurs in s, its length if nowhere. */
  function Find(s: string, c: char): (k: nat)
    ensures k <= |s| && (k < |s| ==> s[k] == c) && forall j :: 0 <= j < k ==> s[j] != c
  {
    if s == [] || s[0] == c then 0
    else
      var k := Find(s[1..], c);
      assert forall j :: 1 <= j < k + 1 ==> s[j] == s[1..][j - 1];
      k + 1
  }

  lemma FindIs(s: string, c: char, k: nat)
    requires k <= |s| && (k < |s| ==> s[k] == c) && forall j :: 0 <= j < k ==> s[j] != c
    ensures Find(s, c) == k
  {
  }

  // ---------------------------------------------------------------- --volume TAG=PATH[:ro]

  datatype Share = Share(tag: string, path: string, ro: bool)

  const RO: string := ":ro"

  predicate EndsInRo(s: string) {
    |s| > 3 && s[|s| - 3] == ':' && s[|s| - 2] == 'r' && s[|s| - 1] == 'o'
  }

  /** The share a path given with a tag means. */
  function Cut(tag: string, path: string): Share {
    if EndsInRo(path) then Share(tag, path[..|path| - 3], true) else Share(tag, path, false)
  }

  /** What the option's text means to the harness. */
  function Parse(s: string): Option<Share> {
    var k := Find(s, '=');
    if k == |s| || k == 0 || k + 1 == |s| then None else Some(Cut(s[..k], s[k + 1..]))
  }

  /** strchr, or the end of the string. */
  method Scan(arg: array<char>, off: nat, c: char, ghost s: string) returns (n: nat)
    requires StringAt(arg[..], off, s)
    ensures n == Find(s, c)
  {
    n := 0;
    while arg[off + n] != NUL && arg[off + n] != c
      invariant n <= |s| && forall j :: 0 <= j < n ==> s[j] != c
      decreases |s| - n
    {
      assert n < |s| ==> arg[..][off + n] == s[n];
      n := n + 1;
    }
    FindIs(s, c, n);
  }

  /** Cut a trailing ":ro" off the path. */
  method CutRo(arg: array<char>, path: nat, ghost tag: string, ghost p: string) returns (ro: bool)
    requires StringAt(arg[..], 0, tag) && StringAt(arg[..], path, p) && |tag| < path
    modifies arg
    ensures Cut(tag, p).ro == ro
    ensures StringAt(arg[..], 0, tag) && StringAt(arg[..], path, Cut(tag, p).path)
  {
    var n := Scan(arg, path, NUL, p);
    assert n == |p|;
    assert forall i :: 0 <= i < n ==> arg[path + i] == arg[..][path + i] == p[i];
    ro := n > 3 && arg[path + n - 3] == ':' && arg[path + n - 2] == 'r' && arg[path + n - 1] == 'o';
    if ro {
      arg[path + n - 3] := NUL;
    }
  }

  lemma CharAt(buf: seq<char>, s: string, k: nat)
    requires StringAt(buf, 0, s) && k <= |s|
    ensures k < |buf| && (buf[k] == NUL <==> k == |s|)
    ensures k < |s| ==> k + 1 < |buf| && (buf[k + 1] == NUL <==> k + 1 == |s|)
  {
    assert k < |s| ==> buf[0 + k] == s[k] && s[k] != NUL;
    assert k + 1 < |s| ==> buf[0 + (k + 1)] == s[k + 1] && s[k + 1] != NUL;
  }

  lemma CutTag(buf: seq<char>, s: string, k: nat, now: seq<char>)
    requires StringAt(buf, 0, s) && k < |s| && now == buf[k := NUL]
    ensures StringAt(now, 0, s[..k]) && StringAt(now, k + 1, s[k + 1..])
  {
    assert now[0 + |s[..k]|] == NUL;
    var t := s[k + 1..];
    forall i | 0 <= i < |t| ensures now[k + 1 + i] == t[i] && t[i] != NUL {
      assert buf[0 + (k + 1 + i)] == s[k + 1 + i];
    }
    assert now[k + 1 + |t|] == buf[0 + |s|];
  }

  /** The option case of main: cut the argument at '=' and before a trailing ":ro", by writing NULs. */
  method ParseVolume(arg: array<char>, ghost s: string) returns (ok: bool, path: nat, ro: bool)
    requires StringAt(arg[..], 0, s)
    modifies arg
    ensures ok <==> Parse(s).Some?
    ensures ok ==> Parse(s).value.ro == ro
    ensures ok ==> StringAt(arg[..], 0, Parse(s).value.tag) && StringAt(arg[..], path, Parse(s).value.path)
  {
    var k := Scan(arg, 0, '=', s);
    ghost var buf := arg[..];
    CharAt(buf, s, k);
    path, ro := k + 1, false;
    ok := arg[k] != NUL && k != 0 && arg[k + 1] != NUL;
    if ok {
      arg[k] := NUL;
      CutTag(buf, s, k, arg[..]);
      ro := CutRo(arg, path, s[..k], s[k + 1..]);
    }
  }

  // ---------------------------------------------------------------- what the agent prints

  function Print(v: Share): string {
    v.tag + "=" + v.path + (if v.ro then RO else "")
  }

  /** The harness recovers a printed share exactly if it is read-only or its path does not itself end in ":ro". */
  lemma ParsePrinted(v: Share)
    requires v.tag != "" && '=' !in v.tag && v.path != ""
    ensures Parse(Print(v)) == Some(v) <==> v.ro || !EndsInRo(v.path)
    ensures Parse(Print(v)).Some?
  {
    var s, k := Print(v), |v.tag|;
    FindIs(s, '=', k);
    assert s[..k] == v.tag && s[k + 1..] == v.path + (if v.ro then RO else "");
    if v.ro {
      assert (v.path + RO)[..|v.path|] == v.path;
    } else {
      assert v.path + "" == v.path;
    }
  }

  // ---------------------------------------------------------------- the whole command line

  datatype Arg = VolumeArg(text: string) | RootImageArg(text: string)

  datatype Devices = Devices(shares: seq<Share>, disks: seq<string>)

  const MAX_VOLUMES: nat := 32
  const MAX_ROOT_IMAGES: nat := 26

  /** The option loop over the device arguments. */
  function ParseArgs(args: seq<Arg>): Result<Devices> {
    if args == [] then
      Ok(Devices([], []))
    else
      var last := args[|args| - 1];
      match ParseArgs(args[..|args| - 1])
      case Err => Err
      case Ok(d) =>
        match last
        case VolumeArg(text) =>
          if |d.shares| >= MAX_VOLUMES || Parse(text).None? then Err
          else Ok(d.(shares := d.shares + [Parse(text).value]))
        case RootImageArg(text) =>
          if |d.disks| >= MAX_ROOT_IMAGES then Err else Ok(d.(disks := d.disks + [text]))
  }

  function VolumeArgs(vs: seq<Share>): (args: seq<Arg>)
    ensures |args| == |vs| && forall i :: 0 <= i < |vs| ==> args[i] == VolumeArg(Print(vs[i]))
  {
    seq(|vs|, i requires 0 <= i < |vs| => VolumeArg(Print(vs[i])))
  }

  function ImageArgs(images: seq<string>): (args: seq<Arg>)
    ensures |args| == |images| && forall i :: 0 <= i < |images| ==> args[i] == RootImageArg(images[i])
  {
    seq(|images|, i requires 0 <= i < |images| => RootImageArg(images[i]))
  }

  predicate Printable(v: Share) {
    v.tag != "" && '=' !in v.tag && v.path != ""
  }

  /** The shares the harness makes of printed ones. */
  function Reparsed(vs: seq<Share>): seq<Share>
    requires forall i :: 0 <= i < |vs| ==> Printable(vs[i])
  {
    seq(|vs|, i requires 0 <= i < |vs| => ReparsedOne(vs[i]))
  }

  function ReparsedOne(v: Share): Share
    requires Printable(v)
  {
    ParsePrinted(v);
    Parse(Print(v)).value
  }

  lemma VolumeArgsLast(vs: seq<Share>)
    requires vs != [] && forall i :: 0 <= i < |vs| ==> Printable(vs[i])
    ensures var init, last := vs[..|vs| - 1], vs[|vs| - 1];
            && VolumeArgs(vs) != [] && VolumeArgs(vs)[..|VolumeArgs(vs)| - 1] == VolumeArgs(init)
            && VolumeArgs(vs)[|VolumeArgs(vs)| - 1] == VolumeArg(Print(last))
            && Parse(Print(last)) == Some(ReparsedOne(last)) && Reparsed(vs) == Reparsed(init) + [ReparsedOne(last)]
  {
    ParsePrinted(vs[|vs| - 1]);
  }

  lemma {:induction false} ParseVolumes(vs: seq<Share>)
    requires forall i :: 0 <= i < |vs| ==> Printable(vs[i])
    ensures ParseArgs(VolumeArgs(vs)) == if |vs| <= MAX_VOLUMES then Ok(Devices(Reparsed(vs), [])) else Err
  {
    if vs == [] {
      assert Reparsed(vs) == [];
    } else {
      var init, last := vs[..|vs| - 1], vs[|vs| - 1];
      ParseVolumes(init);
      VolumeArgsLast(vs);
    }
  }

  lemma {:induction false} ParseImages(vs: seq<Share>, images: seq<string>)
    requires forall i :: 0 <= i < |vs| ==> Printable(vs[i])
    ensures ParseArgs(VolumeArgs(vs) + ImageArgs(images)) ==
              if |vs| <= MAX_VOLUMES && |images| <= MAX_ROOT_IMAGES then Ok(Devices(Reparsed(vs), images)) else Err
  {
    var args := VolumeArgs(vs) + ImageArgs(images);
    if images == [] {
      ParseVolumes(vs);
      assert args == VolumeArgs(vs);
    } else {
      var init := images[..|images| - 1];
      ParseImages(vs, init);
      assert args[..|args| - 1] == VolumeArgs(vs) + ImageArgs(init);
      assert args[|args| - 1] == RootImageArg(images[|images| - 1]);
      assert images == init + [images[|images| - 1]];
    }
  }

  /**
   The harness starts with exactly the agent's devices, in the agent's order, if and only if counts fit and no
   writable path ends in ":ro".
   */
  lemma HarnessAgrees(vs: seq<Share>, images: seq<string>)
    requires forall i :: 0 <= i < |vs| ==> Printable(vs[i])
    ensures ParseArgs(VolumeArgs(vs) + ImageArgs(images)) == Ok(Devices(vs, images)) <==>
              |vs| <= MAX_VOLUMES && |images| <= MAX_ROOT_IMAGES
              && forall i :: 0 <= i < |vs| ==> vs[i].ro || !EndsInRo(vs[i].path)
  {
    ParseImages(vs, images);
    forall i | 0 <= i < |vs| ensures Reparsed(vs)[i] == vs[i] <==> vs[i].ro || !EndsInRo(vs[i].path) {
      ParsePrinted(vs[i]);
    }
    assert Reparsed(vs) == vs <==> forall i :: 0 <= i < |vs| ==> Reparsed(vs)[i] == vs[i];
  }
}
