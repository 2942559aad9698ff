/**
 The reconciler's world: specs, the file store, and keys and certificates as values.
 Signing is recorded as the signer's key, and verification compares it; a file's form
 tells apart the many encodings of one key or certificate, 0 being the one written here.
 */
module PkiStore {
  import opened Wrappers

  type Key = nat

  datatype Kind = KeyPair | Certificate | Kubeconfig

  /** The spec's lifetime: not given, not a duration, or so many nanoseconds. */
  datatype Duration = Default | Malformed | Given(ns: int)

  /**
   A spec as loaded. ips holds the canonical text of each listed address, or None for one that does
   not parse; organizationSet is the order in which a certificate stores the organizations.
   */
  datatype Spec = Spec(name: string, kind: Kind, isCA: bool, issuerRef: string, commonName: string,
                       organizations: seq<string>, organizationSet: seq<string>, dnsNames: seq<string>,
                       ips: seq<Option<string>>, usages: seq<string>, duration: Duration, algorithm: string,
                       server: string, caRef: string, clientRef: string)

  /** Storing the organizations loses none. */
  ghost predicate StoresAll(s: Spec) {
    multiset(s.organizationSet) == multiset(s.organizations)
  }

  datatype Usage = ServerAuth | ClientAuth | OtherUsage(id: nat)

  /** certifies: its constraints let it vouch for other certificates. */
  datatype Cert = Cert(pub: Key, signer: Key, commonName: string, organizations: seq<string>,
                       isCA: bool, certifies: bool,
                       dnsNames: seq<string>, ips: seq<string>, usages: seq<Usage>, notAfter: int, serial: nat)

  datatype Content =
    | KeyPem(key: Key, form: nat)
    | PubPem(pub: Key, form: nat)
    | CertPem(cert: Cert, form: nat)
    | Config(ca: Content, server: string, context: string, user: string, clientCert: Content, clientKey: Content)
    | Other(bytes: string)

  datatype Ext = DotKey | DotPub | DotCrt | DotKubeconfig

  datatype Path = Path(name: string, ext: Ext)

  type Store = map<Path, Content>

  /** What one reconcile draws from outside: the clock, a new key, a serial number. */
  datatype Draw = Draw(now: int, newKey: Key, serial: nat)

  function LoadKey(fs: Store, p: Path): Option<Key> {
    if p in fs && fs[p].KeyPem? then Some(fs[p].key) else None
  }

  function LoadCert(fs: Store, p: Path): Option<Cert> {
    if p in fs && fs[p].CertPem? then Some(fs[p].cert) else None
  }

  function KeyOf(s: Spec): Path {
    Path(s.name, DotKey)
  }

  function CrtOf(s: Spec): Path {
    Path(s.name, DotCrt)
  }

  /** CheckSignatureFrom */
  predicate SignedBy(c: Cert, parent: Cert) {
    parent.certifies && c.signer == parent.pub
  }

  const SECOND: int := 1_000_000_000
  const HOUR: int := 3600 * SECOND
  const RENEWAL: int := 30 * 24 * HOUR
  const TEN_YEARS: int := 10 * 365 * 24 * HOUR

  function ToSeconds(t: int): (r: int)
    ensures t - 1_000_000_000 < r <= t && r % 1_000_000_000 == 0
  {
    t - t % 1_000_000_000
  }

  /** Less than 30 days left. */
  predicate Due(c: Cert, now: int) {
    c.notAfter - now < RENEWAL
  }

  // ---------------------------------------------------------------- usages

  function UsageOf(u: string): seq<Usage> {
    if u == "server auth" then [ServerAuth] else if u == "client auth" then [ClientAuth] else []
  }

  function UsagesFrom(us: seq<string>): seq<Usage> {
    if us == [] then [] else UsagesFrom(us[..|us| - 1]) + UsageOf(us[|us| - 1])
  }

  function WantUsages(s: Spec): seq<Usage> {
    if s.isCA then [] else if s.usages == [] then [ServerAuth, ClientAuth] else UsagesFrom(s.usages)
  }

  /** How often a list of words asks for a usage. */
  function AsksFor(us: seq<string>, u: Usage): nat {
    match u
    case ServerAuth => multiset(us)["server auth"]
    case ClientAuth => multiset(us)["client auth"]
    case OtherUsage(_) => 0
  }

  lemma AsksMore(us: seq<string>, w: string, u: Usage)
    ensures AsksFor(us + [w], u) == AsksFor(us, u) + AsksFor([w], u)
  {
  }

  lemma OneAsks(w: string, u: Usage)
    ensures multiset(UsageOf(w))[u] == AsksFor([w], u)
  {
  }

  lemma Adds<T>(a: seq<T>, b: seq<T>, x: T)
    ensures multiset(a + b)[x] == multiset(a)[x] + multiset(b)[x]
  {
  }

  /** Known usages are asked for as often as they are listed, and no other. */
  lemma {:induction false} UsagesAre(us: seq<string>, u: Usage)
    ensures multiset(UsagesFrom(us))[u] == AsksFor(us, u)
  {
    if us != [] {
      var init, last := us[..|us| - 1], us[|us| - 1];
      UsagesAre(init, u);
      assert us == init + [last];
      AsksMore(init, last, u);
      OneAsks(last, u);
      Adds(UsagesFrom(init), UsageOf(last), u);
    }
  }

  predicate UsagesEqual(have: seq<Usage>, want: seq<Usage>) {
    |have| == |want| && forall u :: u in want ==> u in have
  }

  method WantExtKeyUsages(s: Spec) returns (out: seq<Usage>)
    ensures out == WantUsages(s)
  {
    if s.isCA {
      return [];
    }
    if |s.usages| == 0 {
      return [ServerAuth, ClientAuth];
    }
    out := [];
    for i := 0 to |s.usages|
      invariant out == UsagesFrom(s.usages[..i])
    {
      assert s.usages[..i + 1][..i] == s.usages[..i];
      if s.usages[i] == "server auth" {
        out := out + [ServerAuth];
      } else if s.usages[i] == "client auth" {
        out := out + [ClientAuth];
      }
    }
    assert s.usages[..|s.usages|] == s.usages;
  }

  /** extKeyUsagesEqual: a length check and a one-sided containment. */
  method ExtKeyUsagesEqual(have: seq<Usage>, s: Spec) returns (eq: bool)
    ensures eq <==> UsagesEqual(have, WantUsages(s))
  {
    var want := WantExtKeyUsages(s);
    if |have| != |want| {
      return false;
    }
    var held := set u | u in have;
    for i := 0 to |want|
      invariant forall j :: 0 <= j < i ==> want[j] in have
    {
      if want[i] !in held {
        return false;
      }
    }
    eq := true;
  }

  ghost predicate NoRepeats(s: seq<Usage>) {
    forall i, j :: 0 <= i < j < |s| ==> s[i] != s[j]
  }

  lemma {:induction false} Remove(have: seq<Usage>, u: Usage) returns (rest: seq<Usage>)
    requires u in have
    ensures multiset(rest) == multiset(have) - multiset{u} && |rest| == |have| - 1
    ensures forall v :: v in have && v != u ==> v in rest
  {
    var i :| 0 <= i < |have| && have[i] == u;
    rest := have[..i] + have[i + 1..];
    assert have == have[..i] + [u] + have[i + 1..];
  }

  lemma {:induction false} ContainedEqual(have: seq<Usage>, want: seq<Usage>)
    requires NoRepeats(want) && UsagesEqual(have, want)
    ensures multiset(have) == multiset(want)
    decreases want
  {
    if want != [] {
      var rest := Remove(have, want[0]);
      ContainedEqual(rest, want[1..]);
      assert want == [want[0]] + want[1..];
      assert multiset(have) == multiset(rest) + multiset{want[0]};
    }
  }

  lemma SameUsages(have: seq<Usage>, want: seq<Usage>)
    requires multiset(have) == multiset(want)
    ensures UsagesEqual(have, want)
  {
    assert |have| == |multiset(have)| == |multiset(want)| == |want|;
    forall u | u in want ensures u in have {
      assert u in multiset(have);
    }
  }

  /** A usage the list does not hold. */
  lemma {:induction false} FreshUsage(want: seq<Usage>) returns (n: nat)
    ensures forall m: nat :: OtherUsage(m) in want ==> m < n
  {
    n := 0;
    if want != [] {
      n := FreshUsage(want[1..]);
      assert want == [want[0]] + want[1..];
      if want[0].OtherUsage? && n <= want[0].id {
        n := want[0].id + 1;
      }
    }
  }

  /** With a usage listed twice, the second of the two can be anything else unnoticed. */
  lemma UsagesEqualBlind(want: seq<Usage>, i: nat, j: nat) returns (have: seq<Usage>)
    requires i < j < |want| && want[i] == want[j]
    ensures UsagesEqual(have, want) && multiset(have) != multiset(want)
  {
    var n := FreshUsage(want);
    have := want[j := OtherUsage(n)];
    forall u | u in want ensures u in have {
      var k :| 0 <= k < |want| && want[k] == u;
      assert have[if k == j then i else k] == u;
    }
    assert have[j] in multiset(have) && OtherUsage(n) !in want;
  }

  /** The comparison tells equal from unequal for every certificate exactly when the spec lists no usage twice. */
  lemma UsagesEqualExact(want: seq<Usage>)
    ensures NoRepeats(want) <==> forall have :: UsagesEqual(have, want) <==> multiset(have) == multiset(want)
  {
    if NoRepeats(want) {
      forall have ensures UsagesEqual(have, want) <==> multiset(have) == multiset(want) {
        if multiset(have) == multiset(want) {
          SameUsages(have, want);
        } else if UsagesEqual(have, want) {
          ContainedEqual(have, want);
        }
      }
    } else {
      var i, j :| 0 <= i < j < |want| && want[i] == want[j];
      var have := UsagesEqualBlind(want, i, j);
    }
  }
}
