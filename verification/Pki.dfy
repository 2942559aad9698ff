/** The declarative reconciler: drift, regeneration, and what a whole run leaves behind. */
module Pki {
  import opened Wrappers
  import opened PkiStore

  datatype Outcome = Outcome(ok: bool, fs: Store, wrote: set<Path>)

  function Keep(fs: Store): Outcome {
    Outcome(true, fs, {})
  }

  function Write(o: Outcome, p: Path, c: Content): Outcome {
    Outcome(o.ok, o.fs[p := c], o.wrote + {p})
  }

  function Fail(o: Outcome): Outcome {
    o.(ok := false)
  }

  // ---------------------------------------------------------------- key pairs

  predicate KnownAlgorithm(a: string) {
    a == "" || a == "rsa2048" || a == "ecdsa-p256"
  }

  function PubOf(s: Spec): Path {
    Path(s.name, DotPub)
  }

  predicate Holds(fs: Store, p: Path, c: Content) {
    p in fs && fs[p] == c
  }

  function DoKeyPair(fs: Store, s: Spec, d: Draw): Outcome {
    match LoadKey(fs, KeyOf(s))
    case Some(k) =>
      if Holds(fs, PubOf(s), PubPem(k, 0)) then Keep(fs) else Write(Keep(fs), PubOf(s), PubPem(k, 0))
    case None =>
      if !KnownAlgorithm(s.algorithm) then Fail(Keep(fs))
      else Write(Write(Keep(fs), KeyOf(s), KeyPem(d.newKey, 0)), PubOf(s), PubPem(d.newKey, 0))
  }

  // ---------------------------------------------------------------- certificates

  datatype Issuer = Self | By(cert: Cert, key: Key)

  function Find(specs: seq<Spec>, name: string): Option<Spec> {
    if specs == [] then None else if specs[0].name == name then Some(specs[0]) else Find(specs[1..], name)
  }

  function FindIssuer(specs: seq<Spec>, fs: Store, s: Spec): Result<Issuer> {
    if s.isCA && s.issuerRef == "" then
      Ok(Self)
    else if s.issuerRef == "" then
      Err
    else
      match Find(specs, s.issuerRef)
      case None => Err
      case Some(i) =>
        var cert, key := LoadCert(fs, Path(s.issuerRef, DotCrt)), LoadKey(fs, Path(s.issuerRef, DotKey));
        if i.kind != Certificate || !i.isCA || cert.None? || key.None? then Err else Ok(By(cert.value, key.value))
  }

  function ParentOf(c: Cert, iss: Issuer): Cert {
    if iss.Self? then c else iss.cert
  }

  function WantIPs(ips: seq<Option<string>>): seq<string> {
    if ips == [] then []
    else WantIPs(ips[..|ips| - 1]) + (if ips[|ips| - 1].Some? then [ips[|ips| - 1].value] else [])
  }

  datatype Reason =
    | NoDrift | Missing | KeyMissing | KeyMismatch | CommonNameChanged | OrganizationsChanged | IsCAChanged
    | DnsNamesChanged | IpAddressesChanged | UsagesChanged | NotSigned | ExpiresSoon

  /** certDrift: why the certificate has to be regenerated, or nothing. */
  function Drift(fs: Store, s: Spec, iss: Issuer, now: int): Reason {
    var cert, key := LoadCert(fs, CrtOf(s)), LoadKey(fs, KeyOf(s));
    if cert.None? then Missing
    else if key.None? then KeyMissing
    else if cert.value.pub != key.value then KeyMismatch
    else if cert.value.commonName != s.commonName then CommonNameChanged
    else if multiset(cert.value.organizations) != multiset(s.organizations) then OrganizationsChanged
    else if cert.value.isCA != s.isCA then IsCAChanged
    else if multiset(cert.value.dnsNames) != multiset(s.dnsNames) then DnsNamesChanged
    else if multiset(cert.value.ips) != multiset(WantIPs(s.ips)) then IpAddressesChanged
    else if !UsagesEqual(cert.value.usages, WantUsages(s)) then UsagesChanged
    else if !SignedBy(cert.value, ParentOf(cert.value, iss)) then NotSigned
    else if Due(cert.value, now) then ExpiresSoon
    else NoDrift
  }

  function Lifetime(s: Spec): Option<int> {
    match s.duration
    case Default => Some(TEN_YEARS)
    case Malformed => None
    case Given(ns) => Some(ns)
  }

  /** certTemplate and CreateCertificate. */
  function Issue(s: Spec, iss: Issuer, key: Key, d: Draw): Option<Cert> {
    if Lifetime(s).None? || None in s.ips then
      None
    else if iss.By? && iss.cert.pub != iss.key then
      None
    else
      Some(Cert(key, if iss.Self? then key else iss.key, s.commonName, s.organizationSet, s.isCA, s.isCA,
                s.dnsNames, WantIPs(s.ips), WantUsages(s), ToSeconds(d.now + Lifetime(s).value), d.serial))
  }

  /** The key a regeneration works with: the existing one, or a new one written first. */
  function EnsureKey(fs: Store, s: Spec, d: Draw): (r: (Key, Outcome)) {
    match LoadKey(fs, KeyOf(s))
    case Some(k) => (k, Keep(fs))
    case None => (d.newKey, Write(Keep(fs), KeyOf(s), KeyPem(d.newKey, 0)))
  }

  function Regenerate(fs: Store, s: Spec, iss: Issuer, d: Draw): Outcome {
    var (key, o) := EnsureKey(fs, s, d);
    match Issue(s, iss, key, d)
    case None => Fail(o)
    case Some(c) => Write(o, CrtOf(s), CertPem(c, 0))
  }

  function DoCertificate(specs: seq<Spec>, fs: Store, s: Spec, d: Draw): Outcome {
    match FindIssuer(specs, fs, s)
    case Err => Fail(Keep(fs))
    case Ok(iss) => if Drift(fs, s, iss, d.now) == NoDrift then Keep(fs) else Regenerate(fs, s, iss, d)
  }

  // ---------------------------------------------------------------- kubeconfigs

  /** The content a kubeconfig has to have, from the bytes that are there now. */
  function WantConfig(fs: Store, s: Spec): Option<Content> {
    var ca, crt, key := Path(s.caRef, DotCrt), Path(s.clientRef, DotCrt), Path(s.clientRef, DotKey);
    if s.server == "" || s.caRef == "" || s.clientRef == "" then
      None
    else if ca !in fs || crt !in fs || key !in fs || LoadCert(fs, crt).None? then
      None
    else
      Some(Config(fs[ca], s.server, s.name, LoadCert(fs, crt).value.commonName, fs[crt], fs[key]))
  }

  /** It exists exactly if server, CA and client are named, their files there, and the client's is a certificate. */
  lemma ConfigWanted(fs: Store, s: Spec)
    ensures WantConfig(fs, s).Some? <==>
              && s.server != "" && s.caRef != "" && s.clientRef != "" && Path(s.caRef, DotCrt) in fs
              && Path(s.clientRef, DotKey) in fs
              && Path(s.clientRef, DotCrt) in fs && fs[Path(s.clientRef, DotCrt)].CertPem?
  {
  }

  function OutOf(s: Spec): Path {
    Path(s.name, DotKubeconfig)
  }

  function DoKubeconfig(fs: Store, s: Spec): Outcome {
    match WantConfig(fs, s)
    case None => Fail(Keep(fs))
    case Some(c) => if Holds(fs, OutOf(s), c) then Keep(fs) else Write(Keep(fs), OutOf(s), c)
  }

  function Reconcile(specs: seq<Spec>, fs: Store, s: Spec, d: Draw): Outcome {
    match s.kind
    case KeyPair => DoKeyPair(fs, s, d)
    case Certificate => DoCertificate(specs, fs, s, d)
    case Kubeconfig => DoKubeconfig(fs, s)
  }

  // ---------------------------------------------------------------- what one reconcile writes

  /** A spec's own files: kubeconfigs have one, the others never write that one. */
  predicate Owns(s: Spec, p: Path) {
    p.name == s.name && (s.kind == Kubeconfig <==> p.ext == DotKubeconfig)
  }

  ghost predicate SameOutside(fs: Store, fs': Store, ps: set<Path>) {
    forall p :: p !in ps ==> (p in fs <==> p in fs') && (p in fs ==> fs'[p] == fs[p])
  }

  /** Each reconcile writes only its own spec's files, and nothing at all unless it says so. */
  lemma OnlyOwn(specs: seq<Spec>, fs: Store, s: Spec, d: Draw)
    ensures var o := Reconcile(specs, fs, s, d);
            && SameOutside(fs, o.fs, o.wrote) && forall p :: p in o.wrote ==> Owns(s, p)
  {
  }

  /** No reconcile, finished or failed, replaces a private key that can be loaded. */
  lemma KeyKept(specs: seq<Spec>, fs: Store, s: Spec, d: Draw, p: Path)
    requires p.ext == DotKey && LoadKey(fs, p).Some?
    ensures Holds(Reconcile(specs, fs, s, d).fs, p, fs[p])
  {
  }

  // ---------------------------------------------------------------- settled specs

  /** Everything certDrift looks at, but for the issuer's standing and the calendar. */
  ghost predicate Matches(s: Spec, c: Cert, k: Key, iss: Issuer) {
    && c.pub == k && c.commonName == s.commonName && c.isCA == s.isCA
    && multiset(c.organizations) == multiset(s.organizations) && multiset(c.dnsNames) == multiset(s.dnsNames)
    && multiset(c.ips) == multiset(WantIPs(s.ips)) && UsagesEqual(c.usages, WantUsages(s))
    && c.signer == ParentOf(c, iss).pub && (iss.Self? ==> c.certifies)
  }

  ghost predicate CertSettled(specs: seq<Spec>, fs: Store, s: Spec) {
    var cert, key, iss := LoadCert(fs, CrtOf(s)), LoadKey(fs, KeyOf(s)), FindIssuer(specs, fs, s);
    cert.Some? && key.Some? && iss.Ok? && Matches(s, cert.value, key.value, iss.value)
  }

  ghost predicate Settled(specs: seq<Spec>, fs: Store, s: Spec) {
    match s.kind
    case KeyPair => LoadKey(fs, KeyOf(s)).Some? && Holds(fs, PubOf(s), PubPem(LoadKey(fs, KeyOf(s)).value, 0))
    case Certificate => CertSettled(specs, fs, s)
    case Kubeconfig => WantConfig(fs, s).Some? && Holds(fs, OutOf(s), WantConfig(fs, s).value)
  }

  /** The drift check in full. */
  lemma DriftMeans(specs: seq<Spec>, fs: Store, s: Spec, now: int)
    requires FindIssuer(specs, fs, s).Ok?
    ensures var iss := FindIssuer(specs, fs, s).value;
            Drift(fs, s, iss, now) == NoDrift <==>
              && CertSettled(specs, fs, s)
              && ParentOf(LoadCert(fs, CrtOf(s)).value, iss).certifies && !Due(LoadCert(fs, CrtOf(s)).value, now)
  {
  }

  /** The addresses asked for are those that parse, each as often as it is listed. */
  lemma {:induction false} WantIPsAre(ips: seq<Option<string>>, a: string)
    ensures multiset(WantIPs(ips))[a] == multiset(ips)[Some(a)]
  {
    if ips != [] {
      WantIPsAre(ips[..|ips| - 1], a);
      assert ips == ips[..|ips| - 1] + [ips[|ips| - 1]];
    }
  }

  /** A key pair's reconcile fails exactly if there is no key to load and the algorithm is none it knows. */
  lemma KeyPairFails(specs: seq<Spec>, fs: Store, s: Spec, d: Draw)
    requires s.kind == KeyPair
    ensures var o := Reconcile(specs, fs, s, d);
            && (o.ok <==> LoadKey(fs, Path(s.name, DotKey)).Some? || s.algorithm in {"", "rsa2048", "ecdsa-p256"})
            && (o.ok ==> && LoadKey(o.fs, Path(s.name, DotKey)).Some?
                         && Holds(o.fs, Path(s.name, DotPub), PubPem(LoadKey(o.fs, Path(s.name, DotKey)).value, 0)))
  {
  }

  /**
   A certificate's issuer is found exactly if it is none, for a CA without a reference, or a CA's certificate and
   key that can be loaded.
   */
  lemma IssuerFound(specs: seq<Spec>, fs: Store, s: Spec)
    ensures var r := FindIssuer(specs, fs, s);
            && (r == Ok(Self) <==> s.isCA && s.issuerRef == "")
            && (r.Ok? && r.value.By? <==>
                  && s.issuerRef != "" && Find(specs, s.issuerRef).Some?
                  && Find(specs, s.issuerRef).value.kind == Certificate && Find(specs, s.issuerRef).value.isCA
                  && LoadCert(fs, Path(s.issuerRef, DotCrt)).Some? && LoadKey(fs, Path(s.issuerRef, DotKey)).Some?)
            && (r.Ok? && r.value.By? ==> LoadCert(fs, Path(s.issuerRef, DotCrt)) == Some(r.value.cert)
                                         && LoadKey(fs, Path(s.issuerRef, DotKey)) == Some(r.value.key))
  {
  }

  /** A certificate is due when less than 30 days of it are left; unless told otherwise it is issued for ten years. */
  lemma TimesAre(c: Cert, now: int, s: Spec)
    ensures Due(c, now) <==> c.notAfter < now + 2_592_000_000_000_000
    ensures s.duration == Default ==> Lifetime(s) == Some(315_360_000_000_000_000)
    ensures s.duration == Malformed ==> Lifetime(s) == None
    ensures s.duration.Given? ==> Lifetime(s) == Some(s.duration.ns)
  {
  }

  /** Nothing is issued for a malformed duration, an unparsable address, or an issuer whose key is not its own. */
  lemma IssuedExactly(s: Spec, iss: Issuer, key: Key, d: Draw)
    ensures Issue(s, iss, key, d).Some? <==>
              s.duration != Malformed && None !in s.ips && (iss.By? ==> iss.cert.pub == iss.key)
    ensures Issue(s, iss, key, d).Some? ==>
              var c := Issue(s, iss, key, d).value;
              && c.certifies == s.isCA && c.dnsNames == s.dnsNames && c.serial == d.serial
              && c.signer == (if iss.Self? then key else iss.key)
  {
  }

  lemma IssuedMatches(s: Spec, iss: Issuer, key: Key, d: Draw)
    requires StoresAll(s) && Issue(s, iss, key, d).Some? && (iss.Self? ==> s.isCA)
    ensures Matches(s, Issue(s, iss, key, d).value, key, iss)
  {
  }

  /** An issued certificate expires a lifetime from now, to the second. */
  lemma IssuedLasts(s: Spec, iss: Issuer, key: Key, d: Draw, later: int)
    requires Issue(s, iss, key, d).Some?
    ensures later + RENEWAL + SECOND <= d.now + Lifetime(s).value ==> !Due(Issue(s, iss, key, d).value, later)
    ensures d.now + Lifetime(s).value < later + RENEWAL ==> Due(Issue(s, iss, key, d).value, later)
  {
  }

  /** What regeneration leaves behind. */
  lemma Regenerated(fs: Store, s: Spec, iss: Issuer, d: Draw) returns (key: Key, c: Cert)
    requires Regenerate(fs, s, iss, d).ok
    ensures Issue(s, iss, key, d) == Some(c) && (LoadKey(fs, KeyOf(s)).Some? ==> LoadKey(fs, KeyOf(s)) == Some(key))
    ensures var fs' := Regenerate(fs, s, iss, d).fs;
            LoadKey(fs', KeyOf(s)) == Some(key) && LoadCert(fs', CrtOf(s)) == Some(c)
  {
    key := EnsureKey(fs, s, d).0;
    c := Issue(s, iss, key, d).value;
  }

  lemma RegenerateSettles(specs: seq<Spec>, fs: Store, s: Spec, iss: Issuer, d: Draw)
    requires StoresAll(s) && s.kind == Certificate && FindIssuer(specs, fs, s) == Ok(iss)
    requires Regenerate(fs, s, iss, d).ok
    ensures CertSettled(specs, Regenerate(fs, s, iss, d).fs, s)
  {
    var key, c := Regenerated(fs, s, iss, d);
    IssuedMatches(s, iss, key, d);
    var fs' := Regenerate(fs, s, iss, d).fs;
    if iss.By? && s.issuerRef == s.name {
      assert FindIssuer(specs, fs', s) == Ok(By(c, key));
    } else {
      assert FindIssuer(specs, fs', s) == Ok(iss);
    }
  }

  /** A finished reconcile leaves its spec settled. */
  lemma Settles(specs: seq<Spec>, fs: Store, s: Spec, d: Draw)
    requires StoresAll(s) && Reconcile(specs, fs, s, d).ok
    ensures Settled(specs, Reconcile(specs, fs, s, d).fs, s)
  {
    if s.kind == Certificate {
      var iss := FindIssuer(specs, fs, s).value;
      DriftMeans(specs, fs, s, d.now);
      if Drift(fs, s, iss, d.now) != NoDrift {
        RegenerateSettles(specs, fs, s, iss, d);
      }
    }
  }

  /** Nothing to do for a settled spec: its certificate is not due, and its issuer may certify. */
  ghost predicate Quiet(specs: seq<Spec>, fs: Store, s: Spec, now: int) {
    s.kind == Certificate && LoadCert(fs, CrtOf(s)).Some? && FindIssuer(specs, fs, s).Ok? ==>
      var c := LoadCert(fs, CrtOf(s)).value;
      !Due(c, now) && ParentOf(c, FindIssuer(specs, fs, s).value).certifies
  }

  lemma RegenerateActs(fs: Store, s: Spec, iss: Issuer, d: Draw)
    ensures var o := Regenerate(fs, s, iss, d);
            (!o.ok || o.wrote != {}) && (o.wrote == {} ==> o.fs == fs)
  {
    var (key, o) := EnsureKey(fs, s, d);
    if Issue(s, iss, key, d).Some? {
      assert CrtOf(s) in Regenerate(fs, s, iss, d).wrote;
    } else if o.wrote == {} {
      assert LoadKey(fs, KeyOf(s)).None? ==> KeyOf(s) in o.wrote;
    }
  }

  /** A reconcile leaves its spec alone exactly when it is settled and quiet. */
  lemma LeftAlone(specs: seq<Spec>, fs: Store, s: Spec, d: Draw)
    ensures var o := Reconcile(specs, fs, s, d);
            && (o.ok && o.wrote == {} <==> Settled(specs, fs, s) && Quiet(specs, fs, s, d.now))
            && (o.wrote == {} ==> o.fs == fs)
  {
    if s.kind == Certificate && FindIssuer(specs, fs, s).Ok? {
      DriftMeans(specs, fs, s, d.now);
      RegenerateActs(fs, s, FindIssuer(specs, fs, s).value, d);
    }
  }
}
