/**
 The agent's device plan: which disk each container's root is on, which shares exist,
 and what each container mounts, together with the harness arguments for it.
 */
module DevicePlan {
  import opened Wrappers
  import opened Hiding
  import opened FlowKey
  import opened PodvmArgs

  // ---------------------------------------------------------------- root disks

  /** The distinct images in the order of their first use. */
  function FirstUses(bases: seq<string>): (images: seq<string>)
    ensures forall b :: b in images <==> b in bases
    ensures forall i, j :: 0 <= i < j < |images| ==> images[i] != images[j]
  {
    if bases == [] then
      []
    else
      var before, last := FirstUses(bases[..|bases| - 1]), bases[|bases| - 1];
      assert bases == bases[..|bases| - 1] + [last];
      if last in before then before else before + [last]
  }

  /** The code point n, or what is written for a number that is none. */
  function Rune(n: nat): char {
    if n < 0xD800 || 0xE000 <= n < 0x11_0000 then n as char else '\U{FFFD}'
  }

  /** "/dev/vd" and a letter counted from 'a'. */
  function DeviceName(place: nat): string {
    "/dev/vd" + [Rune('a' as nat + place)]
  }

  /** Each container's root device is named after its image's place among the images. */
  ghost predicate Assigned(bases: seq<string>, rootDevs: seq<string>, images: seq<string>) {
    && images == FirstUses(bases) && |rootDevs| == |bases|
    && forall i, k :: 0 <= i < |bases| && 0 <= k < |images| && images[k] == bases[i] ==> rootDevs[i] == DeviceName(k)
  }

  /** Every image met so far has its device's name. */
  ghost predicate Named(devByBase: map<string, string>, images: seq<string>) {
    && (forall b :: b in devByBase <==> b in images)
    && forall k :: 0 <= k < |images| ==> devByBase[images[k]] == DeviceName(k)
  }

  lemma NamedMore(devByBase: map<string, string>, images: seq<string>, b: string)
    requires Named(devByBase, images) && b !in devByBase
    ensures Named(devByBase[b := DeviceName(|images|)], images + [b])
  {
    var more, dev := images + [b], devByBase[b := DeviceName(|images|)];
    forall k | 0 <= k < |more| ensures more[k] in dev && dev[more[k]] == DeviceName(k) {
      if k < |images| {
        assert more[k] == images[k] && images[k] in images;
      }
    }
  }

  lemma FirstUsesNext(bases: seq<string>, i: nat)
    requires i < |bases|
    ensures FirstUses(bases[..i + 1]) ==
              FirstUses(bases[..i]) + (if bases[i] in FirstUses(bases[..i]) then [] else [bases[i]])
  {
    assert bases[..i + 1][..i] == bases[..i];
  }

  /** One more container: its image's name, which leaves the others right. */
  lemma AssignedNext(bases: seq<string>, i: nat, rootDevs: seq<string>, images: seq<string>, dev: string)
    requires i < |bases| && Assigned(bases[..i], rootDevs, images)
    requires forall k :: 0 <= k < |FirstUses(bases[..i + 1])| && FirstUses(bases[..i + 1])[k] == bases[i] ==>
               dev == DeviceName(k)
    ensures Assigned(bases[..i + 1], rootDevs + [dev], FirstUses(bases[..i + 1]))
  {
    FirstUsesNext(bases, i);
    var now, devs, more := bases[..i + 1], rootDevs + [dev], FirstUses(bases[..i + 1]);
    forall j, k | 0 <= j < |now| && 0 <= k < |more| && more[k] == now[j] ensures devs[j] == DeviceName(k) {
      if j < i {
        assert bases[..i][j] in images;
        var m: nat :| m < |images| && images[m] == now[j];
        assert more[m] == more[k];
      }
    }
  }

  /** containerSpec's choice of each container's root device, container by container. */
  method AssignDisks(bases: seq<string>) returns (rootDevs: seq<string>, images: seq<string>)
    ensures Assigned(bases, rootDevs, images)
  {
    var devByBase: map<string, string> := map[];
    rootDevs, images := [], [];
    for i := 0 to |bases|
      invariant Named(devByBase, images) && Assigned(bases[..i], rootDevs, images)
    {
      FirstUsesNext(bases, i);
      ghost var before := images;
      if bases[i] !in devByBase {
        NamedMore(devByBase, images, bases[i]);
        devByBase := devByBase[bases[i] := DeviceName(|images|)];
        images := images + [bases[i]];
      }
      AssignedNext(bases, i, rootDevs, before, devByBase[bases[i]]);
      rootDevs := rootDevs + [devByBase[bases[i]]];
    }
    assert bases[..|bases|] == bases;
  }

  lemma DeviceNamesDiffer(i: nat, j: nat)
    requires i < 26 && j < 26
    ensures DeviceName(i) == DeviceName(j) <==> i == j
  {
    assert DeviceName(i)[7] == ('a' as int + i) as char && DeviceName(j)[7] == ('a' as int + j) as char;
  }

  /** The letters run from 'a' to 'z'. */
  lemma DeviceLetters(place: nat)
    requires place < 26
    ensures DeviceName(place) == "/dev/vd" + ["abcdefghijklmnopqrstuvwxyz"[place]]
  {
  }

  /** Containers share a root device exactly if they share an image, as long as the letters last. */
  lemma DisksShared(bases: seq<string>, rootDevs: seq<string>, images: seq<string>, i: nat, j: nat)
    requires Assigned(bases, rootDevs, images) && i < |bases| && j < |bases|
    ensures bases[i] == bases[j] ==> rootDevs[i] == rootDevs[j]
    ensures |images| <= 26 && rootDevs[i] == rootDevs[j] ==> bases[i] == bases[j]
  {
    assert bases[i] in images && bases[j] in images;
    var k: nat :| k < |images| && images[k] == bases[i];
    var m: nat :| m < |images| && images[m] == bases[j];
    if |images| <= 26 {
      DeviceNamesDiffer(k, m);
    }
  }

  /** The file of each image that the harness is given. */
  function DiskFiles(images: seq<string>): (files: seq<string>)
    ensures |files| == |images| && forall k :: 0 <= k < |images| ==> files[k] == images[k] + ".erofs"
  {
    seq(|images|, k requires 0 <= k < |images| => images[k] + ".erofs")
  }

  // ---------------------------------------------------------------- volumes

  datatype VolumeKind =
    | HostPath(dir: string, usable: bool)
    | EmptyDir(usable: bool)
    | Injected(usable: bool)
    | Projected
    | Unsupported

  /** Injected is a configMap or secret, unusable in a static pod or when it cannot be fetched. */
  datatype Volume = Volume(name: string, kind: VolumeKind)

  datatype Mount = Mount(container: string, volume: string, path: string, readOnly: bool, subPath: bool)

  datatype GuestMount = GuestMount(container: string, tag: string, path: string, readOnly: bool)

  datatype Device = Device(volume: string, share: Share)

  datatype Plan = Plan(devices: seq<Device>, tags: map<string, string>, mounts: seq<GuestMount>)

  /**
   The pod: its volumes by name, where the agent keeps a volume's directory, and all mounts, container by
   container.
   */
  datatype Pod = Pod(volumes: map<string, Volume>, dirOf: string -> string, mounts: seq<Mount>)

  function HostDir(pod: Pod, v: Volume): Option<string> {
    match v.kind
    case HostPath(dir, usable) => if usable then Some(dir) else None
    case EmptyDir(usable) => if usable then Some(pod.dirOf(v.name)) else None
    case Injected(usable) => if usable then Some(pod.dirOf(v.name)) else None
    case Projected => None
    case Unsupported => None
  }

  predicate ForcedRO(v: Volume) {
    v.kind.Injected?
  }

  predicate AnyWritable(mounts: seq<Mount>, volume: string) {
    exists i :: 0 <= i < |mounts| && mounts[i].volume == volume && !mounts[i].readOnly
  }

  /** A mount the agent can set up, or skip. */
  predicate Acceptable(pod: Pod, m: Mount) {
    && m.volume in pod.volumes && !m.subPath
    && (pod.volumes[m.volume].kind.Projected? || HostDir(pod, pod.volumes[m.volume]).Some?)
  }

  predicate Skipped(pod: Pod, m: Mount)
    requires m.volume in pod.volumes
  {
    pod.volumes[m.volume].kind.Projected?
  }

  function Tag(k: nat): (t: string)
    ensures t != ""
  {
    "vol" + Decimal(k)
  }

  lemma TagsAre(k: nat)
    ensures Tag(k)[..3] == "vol" && Value(Tag(k)[3..]) == k
  {
    assert Tag(k)[3..] == Decimal(k);
    DecimalValue(k);
  }

  lemma {:induction false} DecimalNoEquals(n: nat)
    ensures '=' !in Decimal(n)
  {
    if n >= 10 {
      DecimalNoEquals(n / 10);
    }
  }

  lemma TagsDiffer(j: nat, k: nat)
    ensures Tag(j) == Tag(k) <==> j == k
    ensures '=' !in Tag(k)
  {
    if Tag(j) == Tag(k) {
      assert Tag(j)[3..] == Decimal(j) && Tag(k)[3..] == Decimal(k);
      DecimalInjective(j, k);
    }
    DecimalNoEquals(k);
  }

  /** The volume's share: read-only when nobody writes to it, or when it is a configMap or secret. */
  function ShareOf(pod: Pod, v: Volume, k: nat): Share
    requires HostDir(pod, v).Some?
  {
    Share(Tag(k), HostDir(pod, v).value, !AnyWritable(pod.mounts, v.name) || ForcedRO(v))
  }

  /** Volumes are named by their key. */
  ghost predicate PodOk(pod: Pod) {
    forall n :: n in pod.volumes ==> pod.volumes[n].name == n
  }

  /** Device k is the k-th volume's own. */
  ghost predicate DeviceOk(pod: Pod, p: Plan, k: nat)
    requires k < |p.devices|
  {
    var n := p.devices[k].volume;
    && n in pod.volumes && HostDir(pod, pod.volumes[n]).Some? && p.devices[k].share == ShareOf(pod, pod.volumes[n], k)
    && n in p.tags && p.tags[n] == Tag(k)
  }

  ghost predicate TagOk(p: Plan, n: string, k: nat) {
    k < |p.devices| && p.devices[k].volume == n && n in p.tags && p.tags[n] == Tag(k)
  }

  /** One device per tagged volume. */
  ghost predicate DevicesOk(pod: Pod, p: Plan) {
    && |p.tags| == |p.devices|
    && (forall k :: 0 <= k < |p.devices| ==> DeviceOk(pod, p, k))
    && (forall n :: n in p.tags ==> exists k :: TagOk(p, n, k))
  }

  function GuestSide(pod: Pod, m: Mount, tag: string): GuestMount
    requires m.volume in pod.volumes
  {
    GuestMount(m.container, tag, m.path, m.readOnly || ForcedRO(pod.volumes[m.volume]))
  }

  /** The mount m as its container's guest sees it. */
  predicate MountedAs(pod: Pod, p: Plan, m: Mount, g: GuestMount)
    requires m.volume in pod.volumes
  {
    m.volume in p.tags && g == GuestSide(pod, m, p.tags[m.volume])
  }

  function Wanted(pod: Pod, ms: seq<Mount>): seq<Mount>
    requires forall i :: 0 <= i < |ms| ==> ms[i].volume in pod.volumes
  {
    if ms == [] then []
    else Wanted(pod, ms[..|ms| - 1]) + (if Skipped(pod, ms[|ms| - 1]) then [] else [ms[|ms| - 1]])
  }

  ghost predicate AllAcceptable(pod: Pod, ms: seq<Mount>) {
    forall i :: 0 <= i < |ms| ==> Acceptable(pod, ms[i])
  }

  /** Some mount that is not skipped is of volume n. */
  ghost predicate Uses(pod: Pod, ms: seq<Mount>, n: string) {
    exists i :: 0 <= i < |ms| && ms[i].volume == n && n in pod.volumes && !pod.volumes[n].kind.Projected?
  }

  ghost predicate TagsOk(pod: Pod, p: Plan, ms: seq<Mount>) {
    forall n :: n in p.tags <==> Uses(pod, ms, n)
  }

  ghost predicate MountsOk(pod: Pod, p: Plan, ms: seq<Mount>)
    requires AllAcceptable(pod, ms)
  {
    var want := Wanted(pod, ms);
    && |p.mounts| == |want|
    && forall i :: 0 <= i < |want| ==> want[i].volume in pod.volumes && MountedAs(pod, p, want[i], p.mounts[i])
  }

  ghost predicate PlanHas(pod: Pod, p: Plan, ms: seq<Mount>, seal: Seal) {
    AllAcceptable(pod, ms) && DevicesOk(pod, p) && TagsOk(pod, p, ms) && MountsOk(pod, p, ms)
  }

  /**
   The plan so far: devices for exactly the volumes mounted so far, and every mount's guest side. Opened by
   PlanParts.
   */
  ghost predicate PlanOk(pod: Pod, p: Plan, ms: seq<Mount>) {
    forall seal :: PlanHas(pod, p, ms, seal)
  }

  lemma PlanParts(pod: Pod, p: Plan, ms: seq<Mount>)
    ensures PlanOk(pod, p, ms) <==>
              AllAcceptable(pod, ms) && DevicesOk(pod, p) && TagsOk(pod, p, ms) && MountsOk(pod, p, ms)
  {
    assert PlanHas(pod, p, ms, Seal) ==
           (AllAcceptable(pod, ms) && DevicesOk(pod, p) && TagsOk(pod, p, ms) && MountsOk(pod, p, ms));
  }

  lemma AcceptableMore(pod: Pod, ms: seq<Mount>, m: Mount)
    requires AllAcceptable(pod, ms) && Acceptable(pod, m)
    ensures AllAcceptable(pod, ms + [m])
    ensures Wanted(pod, ms + [m]) == Wanted(pod, ms) + (if Skipped(pod, m) then [] else [m])
  {
    assert (ms + [m])[..|ms + [m]| - 1] == ms;
  }

  lemma UsesMore(pod: Pod, ms: seq<Mount>, m: Mount, n: string)
    requires m.volume in pod.volumes
    ensures Uses(pod, ms + [m], n) <==> Uses(pod, ms, n) || (m.volume == n && !Skipped(pod, m))
  {
    var ms' := ms + [m];
    assert ms'[|ms|] == m;
    if Uses(pod, ms, n) {
      var i :| 0 <= i < |ms| && ms[i].volume == n && n in pod.volumes && !pod.volumes[n].kind.Projected?;
      assert ms'[i] == ms[i];
    }
  }

  /** A new device for volume n. */
  function AddDevice(pod: Pod, p: Plan, n: string): Plan
    requires n in pod.volumes && HostDir(pod, pod.volumes[n]).Some?
  {
    var k := |p.devices|;
    p.(devices := p.devices + [Device(n, ShareOf(pod, pod.volumes[n], k))], tags := p.tags[n := Tag(k)])
  }

  lemma AddDeviceOk(pod: Pod, p: Plan, n: string)
    requires DevicesOk(pod, p) && n in pod.volumes && HostDir(pod, pod.volumes[n]).Some? && n !in p.tags
    ensures DevicesOk(pod, AddDevice(pod, p, n))
  {
    var q, last := AddDevice(pod, p, n), |p.devices|;
    forall k | 0 <= k < |q.devices| ensures DeviceOk(pod, q, k) {
      if k < last {
        assert DeviceOk(pod, p, k) && q.devices[k] == p.devices[k];
      }
    }
    forall m | m in q.tags ensures exists k :: TagOk(q, m, k) {
      if m == n {
        assert TagOk(q, m, last);
      } else {
        var k :| TagOk(p, m, k);
        assert TagOk(q, m, k);
      }
    }
  }

  lemma AddDeviceTags(pod: Pod, p: Plan, n: string)
    requires n in pod.volumes && HostDir(pod, pod.volumes[n]).Some? && n !in p.tags
    ensures var q := AddDevice(pod, p, n);
            && q.tags.Keys == p.tags.Keys + {n} && q.mounts == p.mounts
            && forall m :: m in p.tags ==> m in q.tags && q.tags[m] == p.tags[m]
  {
  }

  lemma TagsMore(pod: Pod, p: Plan, q: Plan, ms: seq<Mount>, m: Mount)
    requires TagsOk(pod, p, ms) && m.volume in pod.volumes
    requires q.tags.Keys == if Skipped(pod, m) then p.tags.Keys else p.tags.Keys + {m.volume}
    ensures TagsOk(pod, q, ms + [m])
  {
    forall n ensures n in q.tags <==> Uses(pod, ms + [m], n) {
      UsesMore(pod, ms, m, n);
    }
  }

  lemma MountsMore(pod: Pod, p: Plan, r: Plan, ms: seq<Mount>, m: Mount)
    requires AllAcceptable(pod, ms) && MountsOk(pod, p, ms) && Acceptable(pod, m) && !Skipped(pod, m)
    requires (forall n :: n in p.tags ==> n in r.tags && r.tags[n] == p.tags[n]) && m.volume in r.tags
    requires r.mounts == p.mounts + [GuestSide(pod, m, r.tags[m.volume])]
    ensures AllAcceptable(pod, ms + [m]) && MountsOk(pod, r, ms + [m])
  {
    AcceptableMore(pod, ms, m);
  }

  lemma SameDevices(pod: Pod, q: Plan, r: Plan)
    requires DevicesOk(pod, q) && r == q.(mounts := r.mounts)
    ensures DevicesOk(pod, r)
  {
    forall k | 0 <= k < |r.devices| ensures DeviceOk(pod, r, k) {
      assert DeviceOk(pod, q, k);
    }
    forall n | n in r.tags ensures exists k :: TagOk(r, n, k) {
      var k :| TagOk(q, n, k);
      assert TagOk(r, n, k);
    }
  }

  /** The volume's device, made on first use. */
  method EnsureDevice(pod: Pod, p: Plan, n: string) returns (q: Plan)
    requires DevicesOk(pod, p) && n in pod.volumes && HostDir(pod, pod.volumes[n]).Some?
    ensures DevicesOk(pod, q) && q.mounts == p.mounts && q.tags.Keys == p.tags.Keys + {n}
    ensures forall m :: m in p.tags ==> m in q.tags && q.tags[m] == p.tags[m]
  {
    q := p;
    if n !in p.tags {
      AddDeviceOk(pod, p, n);
      AddDeviceTags(pod, p, n);
      q := AddDevice(pod, p, n);
    }
  }

  lemma PlanMore(pod: Pod, p: Plan, q: Plan, r: Plan, m: Mount, ms: seq<Mount>)
    requires PlanOk(pod, p, ms) && Acceptable(pod, m) && !Skipped(pod, m)
    requires DevicesOk(pod, q) && q.mounts == p.mounts && q.tags.Keys == p.tags.Keys + {m.volume}
    requires forall n :: n in p.tags ==> n in q.tags && q.tags[n] == p.tags[n]
    requires r == q.(mounts := q.mounts + [GuestSide(pod, m, q.tags[m.volume])])
    ensures PlanOk(pod, r, ms + [m])
  {
    PlanParts(pod, p, ms);
    SameDevices(pod, q, r);
    TagsMore(pod, p, r, ms, m);
    MountsMore(pod, p, r, ms, m);
    PlanParts(pod, r, ms + [m]);
  }

  /** A mount that is not skipped: its volume's device, and its guest side. */
  method MapMount(pod: Pod, p: Plan, m: Mount, ghost ms: seq<Mount>) returns (r: Plan)
    requires PlanOk(pod, p, ms) && Acceptable(pod, m) && !Skipped(pod, m)
    ensures PlanOk(pod, r, ms + [m])
  {
    PlanParts(pod, p, ms);
    var q := EnsureDevice(pod, p, m.volume);
    r := q.(mounts := q.mounts + [GuestSide(pod, m, q.tags[m.volume])]);
    PlanMore(pod, p, q, r, m, ms);
  }

  /** One more mount, or the reason to give up. */
  method AddMount(pod: Pod, p: Plan, m: Mount, ghost ms: seq<Mount>) returns (ok: bool, q: Plan)
    requires PlanOk(pod, p, ms)
    ensures ok <==> Acceptable(pod, m)
    ensures ok ==> PlanOk(pod, q, ms + [m])
  {
    q := p;
    if m.volume !in pod.volumes || m.subPath {
      return false, q;
    }
    var vol := pod.volumes[m.volume];
    if vol.kind.Projected? {
      SkipOk(pod, p, m, ms);
      return true, q;
    }
    var dir := HostDir(pod, vol);
    if dir.None? {
      return false, q;
    }
    ok := true;
    q := MapMount(pod, p, m, ms);
  }

  lemma SkipOk(pod: Pod, p: Plan, m: Mount, ms: seq<Mount>)
    requires PlanOk(pod, p, ms) && Acceptable(pod, m) && Skipped(pod, m)
    ensures PlanOk(pod, p, ms + [m])
  {
    PlanParts(pod, p, ms);
    AcceptableMore(pod, ms, m);
    TagsMore(pod, p, p, ms, m);
    PlanParts(pod, p, ms + [m]);
  }

  /** resolveVolumes: a plan exactly when every mount is acceptable. */
  method ResolveVolumes(pod: Pod) returns (ok: bool, p: Plan)
    ensures ok <==> AllAcceptable(pod, pod.mounts)
    ensures ok ==> PlanOk(pod, p, pod.mounts)
  {
    ok, p := true, Plan([], map[], []);
    PlanParts(pod, p, pod.mounts[..0]);
    for i := 0 to |pod.mounts|
      invariant ok && PlanOk(pod, p, pod.mounts[..i]) && AllAcceptable(pod, pod.mounts[..i])
    {
      ok, p := AddMount(pod, p, pod.mounts[i], pod.mounts[..i]);
      if !ok {
        return;
      }
      assert pod.mounts[..i + 1] == pod.mounts[..i] + [pod.mounts[i]];
    }
    assert pod.mounts[..|pod.mounts|] == pod.mounts;
  }

  // ---------------------------------------------------------------- the plan and the harness

  function Shares(p: Plan): (vs: seq<Share>)
    ensures |vs| == |p.devices| && forall i :: 0 <= i < |vs| ==> vs[i] == p.devices[i].share
  {
    seq(|p.devices|, i requires 0 <= i < |p.devices| => p.devices[i].share)
  }

  /** Directories have names. */
  ghost predicate DirsNamed(pod: Pod) {
    forall n :: n in pod.volumes && HostDir(pod, pod.volumes[n]).Some? ==> HostDir(pod, pod.volumes[n]).value != ""
  }

  /** Distinct tags, one share per mounted volume, read-only exactly when nobody may write. */
  lemma SharesMeanVolumes(pod: Pod, p: Plan, j: nat, k: nat)
    requires PodOk(pod) && PlanOk(pod, p, pod.mounts) && j < |p.devices| && k < |p.devices|
    ensures Shares(p)[j].tag == Shares(p)[k].tag <==> j == k
    ensures p.devices[j].volume == p.devices[k].volume <==> j == k
    ensures var n := p.devices[k].volume;
            && Uses(pod, pod.mounts, n)
            && (Shares(p)[k].ro <==> pod.volumes[n].kind.Injected? || !AnyWritable(pod.mounts, n))
  {
    PlanParts(pod, p, pod.mounts);
    assert DeviceOk(pod, p, j) && DeviceOk(pod, p, k);
    TagsDiffer(j, k);
  }

  /** Every mount that is not skipped finds, under its tag, the one share of its volume. */
  lemma MountsFindShares(pod: Pod, p: Plan, i: nat) returns (k: nat)
    requires PodOk(pod) && PlanOk(pod, p, pod.mounts) && i < |pod.mounts|
    requires pod.mounts[i].volume in pod.volumes && !Skipped(pod, pod.mounts[i])
    ensures k < |p.devices| && p.devices[k].volume == pod.mounts[i].volume
    ensures pod.mounts[i].volume in p.tags && p.tags[pod.mounts[i].volume] == Shares(p)[k].tag
  {
    PlanParts(pod, p, pod.mounts);
    var n := pod.mounts[i].volume;
    assert Uses(pod, pod.mounts, n);
    k :| TagOk(p, n, k);
    assert DeviceOk(pod, p, k);
  }

  /** How many of the first n mounts are not skipped. */
  function Kept(pod: Pod, ms: seq<Mount>, n: nat): nat
    requires n <= |ms| && forall i :: 0 <= i < |ms| ==> ms[i].volume in pod.volumes
  {
    if n == 0 then 0 else Kept(pod, ms, n - 1) + (if pod.volumes[ms[n - 1].volume].kind.Projected? then 0 else 1)
  }

  lemma WantedNext(pod: Pod, ms: seq<Mount>, n: nat)
    requires 0 < n <= |ms| && forall i :: 0 <= i < |ms| ==> ms[i].volume in pod.volumes
    ensures Wanted(pod, ms[..n]) == Wanted(pod, ms[..n - 1]) + (if Skipped(pod, ms[n - 1]) then [] else [ms[n - 1]])
  {
    assert ms[..n][..n - 1] == ms[..n - 1];
  }

  lemma {:induction false} WantedCount(pod: Pod, ms: seq<Mount>, n: nat)
    requires n <= |ms| && forall i :: 0 <= i < |ms| ==> ms[i].volume in pod.volumes
    ensures |Wanted(pod, ms[..n])| == Kept(pod, ms, n)
  {
    if n > 0 {
      WantedCount(pod, ms, n - 1);
      WantedNext(pod, ms, n);
    }
  }

  lemma {:induction false} WantedAre(pod: Pod, ms: seq<Mount>, n: nat, i: nat)
    requires i < n <= |ms| && forall j :: 0 <= j < |ms| ==> ms[j].volume in pod.volumes
    requires !pod.volumes[ms[i].volume].kind.Projected?
    ensures Kept(pod, ms, i) < |Wanted(pod, ms[..n])| && Wanted(pod, ms[..n])[Kept(pod, ms, i)] == ms[i]
  {
    WantedNext(pod, ms, n);
    WantedCount(pod, ms, n - 1);
    if i < n - 1 {
      WantedAre(pod, ms, n - 1, i);
    }
  }

  /**
   The guest gets one mount for every mount that is not skipped, in the same order: in its container, at its path,
   from its volume's share, and read-only exactly if it asks for that or the volume is a configMap or secret.
   */
  lemma MountsAre(pod: Pod, p: Plan, i: nat) returns (j: nat, k: nat)
    requires PodOk(pod) && PlanOk(pod, p, pod.mounts) && i < |pod.mounts|
    requires pod.mounts[i].volume in pod.volumes && !pod.volumes[pod.mounts[i].volume].kind.Projected?
    ensures forall n :: 0 <= n < |pod.mounts| ==> pod.mounts[n].volume in pod.volumes
    ensures |p.mounts| == Kept(pod, pod.mounts, |pod.mounts|)
    ensures j == Kept(pod, pod.mounts, i) < |p.mounts| && k < |p.devices|
    ensures var m, g := pod.mounts[i], p.mounts[j];
            && g.container == m.container && g.path == m.path
            && p.devices[k].volume == m.volume && g.tag == p.devices[k].share.tag
            && (g.readOnly <==> m.readOnly || pod.volumes[m.volume].kind.Injected?)
  {
    PlanParts(pod, p, pod.mounts);
    assert pod.mounts[..|pod.mounts|] == pod.mounts;
    WantedCount(pod, pod.mounts, |pod.mounts|);
    WantedAre(pod, pod.mounts, |pod.mounts|, i);
    j := Kept(pod, pod.mounts, i);
    k := MountsFindShares(pod, p, i);
  }

  /** A share is the directory of its volume: the host's own, or the one the agent keeps for it. */
  lemma SharesAreDirs(pod: Pod, p: Plan, k: nat)
    requires PodOk(pod) && PlanOk(pod, p, pod.mounts) && k < |p.devices|
    ensures p.devices[k].volume in pod.volumes
    ensures match pod.volumes[p.devices[k].volume].kind
            case HostPath(dir, usable) => usable && Shares(p)[k].path == dir
            case EmptyDir(usable) => usable && Shares(p)[k].path == pod.dirOf(p.devices[k].volume)
            case Injected(usable) => usable && Shares(p)[k].path == pod.dirOf(p.devices[k].volume)
            case Projected => false
            case Unsupported => false
  {
    PlanParts(pod, p, pod.mounts);
    assert DeviceOk(pod, p, k);
  }

  /** A mount can be set up exactly if it is no sub-path and its volume is there, of a kind that is, and usable. */
  lemma AcceptableIs(pod: Pod, m: Mount)
    ensures Acceptable(pod, m) <==>
              && !m.subPath && m.volume in pod.volumes
              && match pod.volumes[m.volume].kind
                 case HostPath(_, usable) => usable
                 case EmptyDir(usable) => usable
                 case Injected(usable) => usable
                 case Projected => true
                 case Unsupported => false
  {
  }

  /** A guest mount that may write is never on a share that may not. */
  lemma WritableStaysWritable(pod: Pod, p: Plan, i: nat, k: nat)
    requires PodOk(pod) && PlanOk(pod, p, pod.mounts) && i < |pod.mounts|
    requires pod.mounts[i].volume in pod.volumes && !Skipped(pod, pod.mounts[i])
    requires k < |p.devices| && p.devices[k].volume == pod.mounts[i].volume
    ensures !(pod.mounts[i].readOnly || ForcedRO(pod.volumes[pod.mounts[i].volume])) ==> !Shares(p)[k].ro
  {
    PlanParts(pod, p, pod.mounts);
    assert DeviceOk(pod, p, k);
  }

  lemma SharesPrintable(pod: Pod, p: Plan)
    requires PodOk(pod) && DirsNamed(pod) && PlanOk(pod, p, pod.mounts)
    ensures |Shares(p)| == |p.devices| && forall k :: 0 <= k < |Shares(p)| ==> Printable(Shares(p)[k])
  {
    PlanParts(pod, p, pod.mounts);
    forall k | 0 <= k < |Shares(p)| ensures Printable(Shares(p)[k]) {
      assert DeviceOk(pod, p, k);
      TagsDiffer(k, k);
    }
  }

  /**
   From the agent's arguments the harness attaches exactly the planned shares and, as disk i, the i-th
   image, if and only if counts fit and no writable share's path ends in ":ro".
   */
  lemma PlanReachesHarness(pod: Pod, p: Plan, images: seq<string>)
    requires PodOk(pod) && DirsNamed(pod) && PlanOk(pod, p, pod.mounts)
    ensures ParseArgs(VolumeArgs(Shares(p)) + ImageArgs(images)) == Ok(Devices(Shares(p), images)) <==>
              |p.devices| <= 32 && |images| <= 26
              && forall k :: 0 <= k < |p.devices| ==> p.devices[k].share.ro || !EndsInRo(p.devices[k].share.path)
  {
    SharesPrintable(pod, p);
    HarnessAgrees(Shares(p), images);
  }

  /**
   Of the disks the harness attaches, one is named like container i's root device, and it is the file of
   container i's image.
   */
  lemma RootIsOwnImage(pod: Pod, p: Plan, bases: seq<string>, rootDevs: seq<string>, images: seq<string>, i: nat)
    returns (k: nat)
    requires PodOk(pod) && DirsNamed(pod) && PlanOk(pod, p, pod.mounts)
    requires Assigned(bases, rootDevs, images) && i < |bases|
    requires ParseArgs(VolumeArgs(Shares(p)) + ImageArgs(DiskFiles(images))).Ok?
    ensures var disks := ParseArgs(VolumeArgs(Shares(p)) + ImageArgs(DiskFiles(images))).value.disks;
            && k < |disks| && disks[k] == bases[i] + ".erofs"
            && forall m: nat :: m < |disks| ==> (DeviceName(m) == rootDevs[i] <==> m == k)
  {
    SharesPrintable(pod, p);
    ParseImages(Shares(p), DiskFiles(images));
    assert bases[i] in images;
    k :| k < |images| && images[k] == bases[i];
    forall m: nat | m < |images| ensures DeviceName(m) == rootDevs[i] <==> m == k {
      DeviceNamesDiffer(m, k);
    }
  }
}
