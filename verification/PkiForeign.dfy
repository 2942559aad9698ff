/**
 A PKI that never settles: an intermediate CA whose certificate came from elsewhere and is
 barred from certifying. Every run completes, and every run reissues the leaf below it.
 */
module PkiForeign {
  import opened Wrappers
  import opened PkiStore
  import opened Pki
  import opened PkiRun

  function CertSpec(name: string, isCA: bool, issuer: string): Spec {
    Spec(name, Certificate, isCA, issuer, name, [], [], [], [], [], Default, "", "", "", "")
  }

  const ROOT: Spec := CertSpec("a", true, "")
  const MIDDLE: Spec := CertSpec("b", true, "a")
  const LEAF: Spec := CertSpec("c", false, "b")

  function Chain(): seq<Spec> {
    [ROOT, MIDDLE, LEAF]
  }

  function CertFor(s: Spec, pub: Key, signer: Key, certifies: bool, notAfter: int): Cert {
    Cert(pub, signer, s.commonName, [], s.isCA, certifies, [], [], WantUsages(s), notAfter, 0)
  }

  /** The root in order, the intermediate's certificate without the right to certify, no leaf yet. */
  function Imported(notAfter: int): Store {
    map[KeyOf(ROOT) := KeyPem(1, 0), CrtOf(ROOT) := CertPem(CertFor(ROOT, 1, 1, true, notAfter), 0),
        KeyOf(MIDDLE) := KeyPem(2, 0), CrtOf(MIDDLE) := CertPem(CertFor(MIDDLE, 2, 1, false, notAfter), 0)]
  }

  lemma ChainIsGood()
    ensures GoodOrder(Chain(), Chain()) && AllStored(Chain())
  {
    var c := Chain();
    forall k | 0 <= k < |c| && c[k].issuerRef != "" && c[k].isCA
      ensures exists j :: 0 <= j < k && c[j].name == c[k].issuerRef
    {
      assert k == 1 && c[0].name == c[1].issuerRef;
    }
  }

  /** Root and intermediate are settled, the intermediate is not fit, and neither is due before the time given. */
  ghost predicate Stuck(fs: Store, limit: int) {
    && CertSettled(Chain(), fs, ROOT) && CertSettled(Chain(), fs, MIDDLE)
    && LoadCert(fs, CrtOf(ROOT)).value.certifies && !LoadCert(fs, CrtOf(MIDDLE)).value.certifies
    && LoadCert(fs, CrtOf(ROOT)).value.notAfter - limit >= RENEWAL
    && LoadCert(fs, CrtOf(MIDDLE)).value.notAfter - limit >= RENEWAL
  }

  lemma FindInChain()
    ensures Find(Chain(), "a") == Some(ROOT) && Find(Chain(), "b") == Some(MIDDLE)
  {
    assert Chain()[1..] == [MIDDLE, LEAF];
  }

  lemma ImportedIsStuck(limit: int)
    ensures Stuck(Imported(limit + RENEWAL), limit)
  {
    FindInChain();
  }

  /** The first two specs are left alone. */
  lemma UpperLeftAlone(fs: Store, limit: int, s: Spec, d: Draw)
    requires Stuck(fs, limit) && d.now <= limit && (s == ROOT || s == MIDDLE)
    ensures Reconcile(Chain(), fs, s, d) == Keep(fs)
  {
    FindInChain();
    LeftAlone(Chain(), fs, s, d);
  }

  /** The leaf is written, and the two above it stay as they are. */
  lemma LeafWritten(fs: Store, limit: int, d: Draw)
    requires Stuck(fs, limit)
    ensures var o := Reconcile(Chain(), fs, LEAF, d); o.ok && CrtOf(LEAF) in o.wrote && Stuck(o.fs, limit)
  {
    FindInChain();
    ForeignIntermediate(Chain(), fs, LEAF, d);
    OnlyOwn(Chain(), fs, LEAF, d);
  }

  /** So every run before that time completes, writes the leaf's certificate, and leaves the next run no better off. */
  lemma RunStaysStuck(fs: Store, limit: int, draws: seq<Draw>)
    requires Stuck(fs, limit) && |draws| == 3 && forall k :: 0 <= k < 3 ==> draws[k].now <= limit
    ensures var o := Run(Chain(), Chain(), fs, draws);
            o.ok && CrtOf(LEAF) in o.wrote && Stuck(o.fs, limit)
  {
    UpperLeftAlone(fs, limit, ROOT, draws[0]);
    UpperLeftAlone(fs, limit, MIDDLE, draws[1]);
    LeafWritten(fs, limit, draws[2]);
    assert Steps(Chain(), Chain(), fs, draws, 1) == Keep(fs);
    assert Steps(Chain(), Chain(), fs, draws, 2) == Keep(fs);
  }

  lemma {:induction false} RunsStayStuck(fs: Store, limit: int, ds: seq<seq<Draw>>)
    requires Stuck(fs, limit) && forall i :: 0 <= i < |ds| ==> |ds[i]| == 3
    requires forall i, k :: 0 <= i < |ds| && 0 <= k < 3 ==> ds[i][k].now <= limit
    ensures Stuck(Runs(Chain(), Chain(), fs, ds), limit)
  {
    if ds != [] {
      RunsStayStuck(fs, limit, ds[..|ds| - 1]);
      RunStaysStuck(Runs(Chain(), Chain(), fs, ds[..|ds| - 1]), limit, ds[|ds| - 1]);
    }
  }

  /** However many runs went before, the next one completes and rewrites the leaf. */
  lemma NeverConverges(limit: int, ds: seq<seq<Draw>>, next: seq<Draw>)
    requires |next| == 3 && forall i :: 0 <= i < |ds| ==> |ds[i]| == 3
    requires forall i, k :: 0 <= i < |ds| && 0 <= k < 3 ==> ds[i][k].now <= limit
    requires forall k :: 0 <= k < 3 ==> next[k].now <= limit
    ensures GoodOrder(Chain(), Chain()) && AllStored(Chain())
    ensures var o := Run(Chain(), Chain(), Runs(Chain(), Chain(), Imported(limit + RENEWAL), ds), next);
            o.ok && CrtOf(LEAF) in o.wrote
  {
    ChainIsGood();
    ImportedIsStuck(limit);
    RunsStayStuck(Imported(limit + RENEWAL), limit, ds);
    RunStaysStuck(Runs(Chain(), Chain(), Imported(limit + RENEWAL), ds), limit, next);
  }
}
