/** The reconciler as it runs: a store of files rewritten step by step, four passes over the specs. */
module PkiReconciler {
  import opened Wrappers
  import opened Hiding
  import opened StringSets
  import opened PkiStore
  import opened Pki
  import opened PkiRun

  /** The canonical texts of the addresses that parse. */
  method ParsedIPs(ips: seq<Option<string>>) returns (r: seq<string>)
    ensures r == WantIPs(ips)
  {
    r := [];
    for i := 0 to |ips|
      invariant r == WantIPs(ips[..i])
    {
      assert ips[..i + 1][..i] == ips[..i];
      if ips[i].Some? {
        r := r + [ips[i].value];
      }
    }
    assert ips[..|ips|] == ips;
  }

  class Reconciler {
    const specs: seq<Spec>
    var fs: Store
    ghost var wrote: set<Path>

    constructor (specs: seq<Spec>, fs: Store)
      ensures this.specs == specs && this.fs == fs && wrote == {}
    {
      this.specs, this.fs, wrote := specs, fs, {};
    }

    method WriteFile(p: Path, c: Content)
      modifies this
      ensures fs == old(fs)[p := c] && wrote == old(wrote) + {p}
    {
      fs := fs[p := c];
      wrote := wrote + {p};
    }

    method ReconcileKeyPair(s: Spec, d: Draw) returns (ok: bool)
      modifies this
      ensures var o := DoKeyPair(old(fs), s, d); ok == o.ok && fs == o.fs && wrote == old(wrote) + o.wrote
    {
      var found := LoadKey(fs, KeyOf(s));
      if found.Some? {
        if PubOf(s) !in fs || fs[PubOf(s)] != PubPem(found.value, 0) {
          WriteFile(PubOf(s), PubPem(found.value, 0));
        }
        return true;
      }
      if !KnownAlgorithm(s.algorithm) {
        return false;
      }
      WriteFile(KeyOf(s), KeyPem(d.newKey, 0));
      WriteFile(PubOf(s), PubPem(d.newKey, 0));
      ok := true;
    }

    method CertDrift(s: Spec, iss: Issuer, now: int) returns (reason: Reason)
      ensures reason == Drift(fs, s, iss, now)
    {
      var cert, key := LoadCert(fs, CrtOf(s)), LoadKey(fs, KeyOf(s));
      if cert.None? { return Missing; }
      if key.None? { return KeyMissing; }
      var c := cert.value;
      if c.pub != key.value { return KeyMismatch; }
      if c.commonName != s.commonName { return CommonNameChanged; }
      var same := StringSetEqual(c.organizations, s.organizations);
      if !same { return OrganizationsChanged; }
      if c.isCA != s.isCA { return IsCAChanged; }
      same := StringSetEqual(c.dnsNames, s.dnsNames);
      if !same { return DnsNamesChanged; }
      var wantIPs := ParsedIPs(s.ips);
      same := StringSetEqual(c.ips, wantIPs);
      if !same { return IpAddressesChanged; }
      same := ExtKeyUsagesEqual(c.usages, s);
      if !same { return UsagesChanged; }
      if !SignedBy(c, ParentOf(c, iss)) { return NotSigned; }
      if Due(c, now) { return ExpiresSoon; }
      reason := NoDrift;
    }

    /** certTemplate and the signing of what it made. */
    method MakeCert(s: Spec, iss: Issuer, key: Key, d: Draw) returns (c: Option<Cert>)
      ensures c == Issue(s, iss, key, d)
    {
      var lifetime := Lifetime(s);
      if lifetime.None? {
        return None;
      }
      for i := 0 to |s.ips|
        invariant forall j :: 0 <= j < i ==> s.ips[j].Some?
      {
        if s.ips[i].None? {
          return None;
        }
      }
      if iss.By? && iss.cert.pub != iss.key {
        return None;
      }
      var ips := ParsedIPs(s.ips);
      var usages := WantExtKeyUsages(s);
      c := Some(Cert(key, if iss.Self? then key else iss.key, s.commonName, s.organizationSet, s.isCA, s.isCA,
                     s.dnsNames, ips, usages, ToSeconds(d.now + lifetime.value), d.serial));
    }

    method Reissue(s: Spec, iss: Issuer, d: Draw) returns (ok: bool)
      modifies this
      ensures var o := Regenerate(old(fs), s, iss, d); ok == o.ok && fs == o.fs && wrote == old(wrote) + o.wrote
    {
      var found := LoadKey(fs, KeyOf(s));
      var key := if found.Some? then found.value else d.newKey;
      if found.None? {
        WriteFile(KeyOf(s), KeyPem(key, 0));
      }
      var c := MakeCert(s, iss, key, d);
      ok := c.Some?;
      if ok {
        WriteFile(CrtOf(s), CertPem(c.value, 0));
      }
    }

    method ReconcileCertificate(s: Spec, d: Draw) returns (ok: bool)
      modifies this
      ensures var o := DoCertificate(specs, old(fs), s, d); ok == o.ok && fs == o.fs && wrote == old(wrote) + o.wrote
    {
      var iss := FindIssuer(specs, fs, s);
      if iss.Err? {
        return false;
      }
      var reason := CertDrift(s, iss.value, d.now);
      if reason == NoDrift {
        return true;
      }
      ok := Reissue(s, iss.value, d);
    }

    method ReconcileKubeconfig(s: Spec) returns (ok: bool)
      modifies this
      ensures var o := DoKubeconfig(old(fs), s); ok == o.ok && fs == o.fs && wrote == old(wrote) + o.wrote
    {
      var want := WantConfig(fs, s);
      if want.None? {
        return false;
      }
      if OutOf(s) !in fs || fs[OutOf(s)] != want.value {
        WriteFile(OutOf(s), want.value);
      }
      ok := true;
    }

    method ReconcileOne(s: Spec, d: Draw) returns (ok: bool)
      modifies this
      ensures var o := Reconcile(specs, old(fs), s, d); ok == o.ok && fs == o.fs && wrote == old(wrote) + o.wrote
    {
      match s.kind {
        case KeyPair => ok := ReconcileKeyPair(s, d);
        case Certificate => ok := ReconcileCertificate(s, d);
        case Kubeconfig => ok := ReconcileKubeconfig(s);
      }
    }

    method ReconcileNext(s: Spec, draws: seq<Draw>, n: nat, ghost order: seq<Spec>, ghost start: Store)
      returns (ok: bool)
      requires |draws| == |order| && n < |draws| && order[n] == s
      requires Reached(specs, order, start, draws, n, Outcome(true, fs, wrote))
      modifies this
      ensures Reached(specs, order, start, draws, n + 1, Outcome(ok, fs, wrote))
    {
      ReachedIs(specs, order, start, draws, n, Outcome(true, fs, wrote));
      StepsNext(specs, order, start, draws, n);
      ok := ReconcileOne(s, draws[n]);
      ReachedIs(specs, order, start, draws, n + 1, Outcome(ok, fs, wrote));
    }

    /** One pass: the specs of a rank, in order, until one fails. done says how many reconciles came before. */
    method RunPass(rank: nat, draws: seq<Draw>, done: nat, ghost order: seq<Spec>, ghost start: Store)
      returns (ok: bool, n: nat)
      requires order == Order(specs) && |draws| == |order| && rank < 4 && done == |Before(specs, rank)|
      requires done <= |draws|
      requires Reached(specs, order, start, draws, done, Outcome(true, fs, wrote))
      modifies this
      ensures n <= |draws| && Reached(specs, order, start, draws, n, Outcome(ok, fs, wrote))
      ensures ok ==> n == |Before(specs, rank + 1)|
    {
      ok, n := true, done;
      assert specs[..0] == [];
      for i := 0 to |specs|
        invariant ok && n == done + |Pass(specs[..i], rank)| && n <= |draws|
        invariant Reached(specs, order, start, draws, n, Outcome(true, fs, wrote))
      {
        PassStep(specs, order, i, rank, n);
        if Rank(specs[i]) == rank {
          ok := ReconcileNext(specs[i], draws, n, order, start);
          n := n + 1;
          if !ok {
            return;
          }
        }
      }
      assert specs[..|specs|] == specs;
    }

    /** main, after the specs are loaded: the four passes. */
    method RunPasses(draws: seq<Draw>, ghost order: seq<Spec>) returns (ok: bool)
      requires order == Order(specs) && |draws| == |order| && wrote == {}
      modifies this
      ensures Run(specs, order, old(fs), draws) == Outcome(ok, fs, wrote)
    {
      ghost var start := fs;
      ok := true;
      var n: nat, rank: nat := 0, 0;
      ReachedIs(specs, order, start, draws, 0, Outcome(true, fs, wrote));
      while ok && rank < 4
        invariant 0 <= rank <= 4 && n <= |draws|
        invariant Reached(specs, order, start, draws, n, Outcome(ok, fs, wrote))
        invariant ok ==> n == |Before(specs, rank)|
        decreases 4 - rank
      {
        ok, n := RunPass(rank, draws, n, order, start);
        rank := rank + 1;
      }
      OrderIs(specs);
      if !ok {
        StopsAt(specs, order, start, draws, n, |draws|, Outcome(ok, fs, wrote));
      }
      ReachedIs(specs, order, start, draws, |draws|, Outcome(ok, fs, wrote));
    }
  }

  ghost predicate StepsAre(seal: Seal, specs: seq<Spec>, order: seq<Spec>, fs: Store, draws: seq<Draw>, n: nat,
                           r: Outcome)
    requires |draws| == |order| && n <= |draws|
  {
    Steps(specs, order, fs, draws, n) == r
  }

  /** The run from fs stands at r after n reconciles; opened by ReachedIs. */
  ghost predicate Reached(specs: seq<Spec>, order: seq<Spec>, fs: Store, draws: seq<Draw>, n: nat, r: Outcome)
    requires |draws| == |order| && n <= |draws|
  {
    forall seal :: StepsAre(seal, specs, order, fs, draws, n, r)
  }

  lemma ReachedIs(specs: seq<Spec>, order: seq<Spec>, fs: Store, draws: seq<Draw>, n: nat, r: Outcome)
    requires |draws| == |order| && n <= |draws|
    ensures Reached(specs, order, fs, draws, n, r) <==> Steps(specs, order, fs, draws, n) == r
  {
    assert StepsAre(Seal, specs, order, fs, draws, n, r) == (Steps(specs, order, fs, draws, n) == r);
  }

  /** What the passes before a rank reconcile. */
  function Before(specs: seq<Spec>, rank: nat): seq<Spec> {
    if rank == 0 then [] else Before(specs, rank - 1) + Pass(specs, rank - 1)
  }

  lemma OrderIs(specs: seq<Spec>)
    ensures Before(specs, 4) == Order(specs)
  {
    assert Before(specs, 1) == Pass(specs, 0);
    assert Before(specs, 2) == Pass(specs, 0) + Pass(specs, 1);
    assert Before(specs, 3) == Pass(specs, 0) + Pass(specs, 1) + Pass(specs, 2);
  }

  lemma {:induction false} BeforePrefix(specs: seq<Spec>, r: nat, q: nat)
    requires r <= q
    ensures Before(specs, r) <= Before(specs, q)
  {
    if r < q {
      BeforePrefix(specs, r, q - 1);
    }
  }

  lemma {:induction false} PassPrefix(specs: seq<Spec>, i: nat, rank: nat)
    requires i <= |specs|
    ensures Pass(specs[..i], rank) <= Pass(specs, rank)
    decreases |specs|
  {
    if i < |specs| {
      assert specs[..|specs| - 1][..i] == specs[..i];
      PassPrefix(specs[..|specs| - 1], i, rank);
    } else {
      assert specs[..i] == specs;
    }
  }

  /** Where the i-th spec's reconcile stands in the order. */
  lemma PassStep(specs: seq<Spec>, order: seq<Spec>, i: nat, rank: nat, n: nat)
    requires order == Order(specs) && i < |specs| && rank < 4 && n == |Before(specs, rank)| + |Pass(specs[..i], rank)|
    ensures |Pass(specs[..i + 1], rank)| == |Pass(specs[..i], rank)| + (if Rank(specs[i]) == rank then 1 else 0)
    ensures Rank(specs[i]) == rank ==> n < |order| && order[n] == specs[i]
  {
    assert specs[..i + 1][..i] == specs[..i];
    PassPrefix(specs, i + 1, rank);
    BeforePrefix(specs, rank + 1, 4);
    OrderIs(specs);
    assert Before(specs, rank + 1) == Before(specs, rank) + Pass(specs, rank);
  }

  lemma StepsNext(specs: seq<Spec>, order: seq<Spec>, fs: Store, draws: seq<Draw>, n: nat)
    requires |draws| == |order| && n < |draws|
    ensures var o := Steps(specs, order, fs, draws, n);
            if o.ok then
              var r := Reconcile(specs, o.fs, order[n], draws[n]);
              Steps(specs, order, fs, draws, n + 1) == Outcome(r.ok, r.fs, o.wrote + r.wrote)
            else Steps(specs, order, fs, draws, n + 1) == o
  {
  }

  lemma StopsNext(specs: seq<Spec>, order: seq<Spec>, fs: Store, draws: seq<Draw>, n: nat, r: Outcome)
    requires |draws| == |order| && n < |draws| && !r.ok && Reached(specs, order, fs, draws, n, r)
    ensures Reached(specs, order, fs, draws, n + 1, r)
  {
    ReachedIs(specs, order, fs, draws, n, r);
    ReachedIs(specs, order, fs, draws, n + 1, r);
    StepsNext(specs, order, fs, draws, n);
  }

  /** A failed run stays where it failed. */
  lemma {:induction false} StopsAt(specs: seq<Spec>, order: seq<Spec>, fs: Store, draws: seq<Draw>,
                                   n: nat, k: nat, r: Outcome)
    requires |draws| == |order| && n <= k <= |draws| && !r.ok && Reached(specs, order, fs, draws, n, r)
    ensures Reached(specs, order, fs, draws, k, r)
    decreases k - n
  {
    if n < k {
      StopsNext(specs, order, fs, draws, n, r);
      StopsAt(specs, order, fs, draws, n + 1, k, r);
    }
  }
}
