/**
 Runs over specs in which a CA may sort before its issuer, or be its own: when they complete,
 and how many it takes until nothing is left to do.
 */
module PkiAnyOrder {
  import opened Wrappers
  import opened PkiStore
  import opened Pki
  import opened PkiRun
  import opened PkiForeign

  // ---------------------------------------------------------------- certificates and keys that go together

  /** The certificate is for the key beside it. */
  predicate Keyed(fs: Store, s: Spec) {
    && LoadKey(fs, KeyOf(s)).Some? && LoadCert(fs, CrtOf(s)).Some?
    && LoadCert(fs, CrtOf(s)).value.pub == LoadKey(fs, KeyOf(s)).value
  }

  ghost predicate AllKeyed(order: seq<Spec>, fs: Store) {
    forall j :: 0 <= j < |order| && order[j].kind == Certificate ==> Keyed(fs, order[j])
  }

  /** A finished reconcile leaves its certificate so, and a key that was there in place. */
  lemma KeysOwn(specs: seq<Spec>, fs: Store, s: Spec, d: Draw, now: Store)
    requires s.kind == Certificate && Turn(specs, fs, s, d, now)
    ensures Keyed(now, s) && (LoadKey(fs, KeyOf(s)).Some? ==> LoadKey(now, KeyOf(s)) == LoadKey(fs, KeyOf(s)))
  {
    TurnIs(specs, fs, s, d, now);
    var iss := FindIssuer(specs, fs, s).value;
    DriftMeans(specs, fs, s, d.now);
    if Drift(fs, s, iss, d.now) != NoDrift {
      var key, c := Regenerated(fs, s, iss, d);
    }
  }

  lemma KeysOthers(specs: seq<Spec>, fs: Store, s: Spec, w: Spec, d: Draw, now: Store)
    requires Keyed(fs, s) && s.name != w.name && Turn(specs, fs, w, d, now)
    ensures Keyed(now, s)
  {
    TurnIs(specs, fs, w, d, now);
    OnlyOwn(specs, fs, w, d);
  }

  /** After its own turn, or if it was so before, every certificate is for its present key. */
  lemma {:induction false} KeyedSoFar(specs: seq<Spec>, order: seq<Spec>, fs: Store, draws: seq<Draw>, k: nat, j: nat,
                                      now: Store)
    requires DistinctNames(order) && Through(specs, order, fs, draws, k, now)
    requires j < |order| && order[j].kind == Certificate && (j < k || Keyed(fs, order[j]))
    ensures Keyed(now, order[j])
  {
    if k == 0 {
      ThroughStart(specs, order, fs, draws, now);
    } else {
      var before := ThroughMore(specs, order, fs, draws, k, now);
      if j == k - 1 {
        KeysOwn(specs, before, order[j], draws[j], now);
      } else {
        KeyedSoFar(specs, order, fs, draws, k - 1, j, before);
        KeysOthers(specs, before, order[j], order[k - 1], draws[k - 1], now);
      }
    }
  }

  lemma RunKeys(specs: seq<Spec>, order: seq<Spec>, fs: Store, draws: seq<Draw>, now: Store)
    requires DistinctNames(order) && Through(specs, order, fs, draws, |order|, now)
    ensures AllKeyed(order, now)
  {
    forall j | 0 <= j < |order| && order[j].kind == Certificate ensures Keyed(now, order[j]) {
      KeyedSoFar(specs, order, fs, draws, |order|, j, now);
    }
  }

  // ---------------------------------------------------------------- an issuer's turn after what it issued

  /** Only the issuer's signature may be out of date. */
  ghost predicate SettledBut(specs: seq<Spec>, fs: Store, s: Spec) {
    var cert, key, iss := LoadCert(fs, CrtOf(s)), LoadKey(fs, KeyOf(s)), FindIssuer(specs, fs, s);
    && cert.Some? && key.Some? && iss.Ok?
    && Matches(s, cert.value.(signer := ParentOf(cert.value, iss.value).pub), key.value, iss.value)
  }

  /** The signature is of the key in the issuer's present certificate. */
  ghost predicate SignedNow(specs: seq<Spec>, fs: Store, s: Spec) {
    LoadCert(fs, CrtOf(s)).Some? && FindIssuer(specs, fs, s).Ok? ==>
      var c := LoadCert(fs, CrtOf(s)).value;
      c.signer == ParentOf(c, FindIssuer(specs, fs, s).value).pub
  }

  lemma SettledMeans(specs: seq<Spec>, fs: Store, s: Spec)
    ensures CertSettled(specs, fs, s) <==> SettledBut(specs, fs, s) && SignedNow(specs, fs, s)
  {
  }

  /** The spec an issuer's name leads to is the one of that name in the order. */
  lemma IssuerIs(specs: seq<Spec>, order: seq<Spec>, fs: Store, s: Spec, w: Spec)
    requires Ranked(specs, order) && s.kind == Certificate && w in order && w.name == s.issuerRef
    requires FindIssuer(specs, fs, s).Ok? && FindIssuer(specs, fs, s).value.By?
    ensures Find(specs, s.issuerRef) == Some(w) && w.kind == Certificate && w.isCA
  {
    FindMeans(specs, s.issuerRef);
    var i := Find(specs, s.issuerRef).value;
    assert i in order;
    if i != w {
      NamesApart(order, i, w);
    }
  }

  /** Someone else's turn leaves the issuer to be found, though its key may be a new one. */
  lemma IssuerStays(specs: seq<Spec>, order: seq<Spec>, fs: Store, s: Spec, w: Spec, d: Draw, now: Store)
    requires Ranked(specs, order) && s.kind == Certificate && w in order && w.name != s.name
    requires FindIssuer(specs, fs, s).Ok? && Turn(specs, fs, w, d, now)
    ensures var iss, iss' := FindIssuer(specs, fs, s), FindIssuer(specs, now, s);
            && iss'.Ok? && (iss'.value.Self? <==> iss.value.Self?)
            && (iss.value.Self? || w.name != s.issuerRef ==> iss' == iss)
            && (iss.value.By? && w.name == s.issuerRef && Keyed(fs, w) ==> iss'.value.cert.pub == iss.value.cert.pub)
  {
    OwnFiles(specs, fs, s, w, d, now);
    if FindIssuer(specs, fs, s).value.By? {
      if w.name == s.issuerRef {
        IssuerIs(specs, order, fs, s, w);
        KeysOwn(specs, fs, w, d, now);
      } else {
        TurnIs(specs, fs, w, d, now);
        OnlyOwn(specs, fs, w, d);
      }
    }
  }

  lemma OwnFiles(specs: seq<Spec>, fs: Store, s: Spec, w: Spec, d: Draw, now: Store)
    requires s.kind == Certificate && w.name != s.name && Turn(specs, fs, w, d, now)
    ensures LoadCert(now, CrtOf(s)) == LoadCert(fs, CrtOf(s)) && LoadKey(now, KeyOf(s)) == LoadKey(fs, KeyOf(s))
  {
    TurnIs(specs, fs, w, d, now);
    OnlyOwn(specs, fs, w, d);
  }

  lemma ButStays(specs: seq<Spec>, order: seq<Spec>, fs: Store, s: Spec, w: Spec, d: Draw, now: Store)
    requires Ranked(specs, order) && s.kind == Certificate && w in order && w.name != s.name
    requires SettledBut(specs, fs, s) && Turn(specs, fs, w, d, now)
    ensures SettledBut(specs, now, s)
  {
    IssuerStays(specs, order, fs, s, w, d, now);
    OwnFiles(specs, fs, s, w, d, now);
  }

  lemma NamesDiffer(order: seq<Spec>, i: nat, j: nat)
    requires DistinctNames(order) && i < j < |order|
    ensures order[i].name != order[j].name && order[i] in order && order[j] in order
  {
  }

  lemma CertSettles(specs: seq<Spec>, fs: Store, s: Spec, d: Draw, now: Store)
    requires StoresAll(s) && s.kind == Certificate && Turn(specs, fs, s, d, now)
    ensures CertSettled(specs, now, s)
  {
    TurnIs(specs, fs, s, d, now);
    Settles(specs, fs, s, d);
  }

  /** After k successful reconciles only signatures of the first k can be out of date. */
  lemma {:induction false} ButSoFar(specs: seq<Spec>, order: seq<Spec>, fs: Store, draws: seq<Draw>, k: nat, j: nat,
                                    now: Store)
    requires AllStored(order) && Ranked(specs, order) && Through(specs, order, fs, draws, k, now)
    requires j < k && j < |order| && order[j].kind == Certificate
    ensures SettledBut(specs, now, order[j])
  {
    var before := ThroughMore(specs, order, fs, draws, k, now);
    if j < k - 1 {
      ButSoFar(specs, order, fs, draws, k - 1, j, before);
      NamesDiffer(order, j, k - 1);
      ButStays(specs, order, before, order[j], order[k - 1], draws[k - 1], now);
    } else {
      CertSettles(specs, before, order[j], draws[j], now);
      SettledMeans(specs, now, order[j]);
    }
  }

  lemma PairTurn(specs: seq<Spec>, fs: Store, s: Spec, w: Spec, d: Draw, now: Store)
    requires s.kind == KeyPair && Turn(specs, fs, w, d, now) && (w == s || (w.name != s.name && Settled(specs, fs, s)))
    ensures Settled(specs, now, s)
  {
    TurnIs(specs, fs, w, d, now);
    OnlyOwn(specs, fs, w, d);
  }

  /** A key pair keeps what it was given. */
  lemma {:induction false} PairSoFar(specs: seq<Spec>, order: seq<Spec>, fs: Store, draws: seq<Draw>, k: nat, j: nat,
                                     now: Store)
    requires DistinctNames(order) && Through(specs, order, fs, draws, k, now)
    requires j < k && j < |order| && order[j].kind == KeyPair
    ensures Settled(specs, now, order[j])
  {
    var before := ThroughMore(specs, order, fs, draws, k, now);
    if j < k - 1 {
      PairSoFar(specs, order, fs, draws, k - 1, j, before);
    }
    PairTurn(specs, before, order[j], order[k - 1], draws[k - 1], now);
  }

  ghost predicate SignedAt(specs: seq<Spec>, order: seq<Spec>, fs: Store, j: nat)
    requires j < |order|
  {
    order[j].kind == Certificate ==> SignedNow(specs, fs, order[j])
  }

  lemma SettledIfSigned(specs: seq<Spec>, order: seq<Spec>, fs: Store, draws: seq<Draw>, now: Store, j: nat)
    requires AllStored(order) && Ranked(specs, order) && Through(specs, order, fs, draws, |order|, now) && j < |order|
    ensures SettledAt(specs, order, now, j) <==> SignedAt(specs, order, now, j)
  {
    match order[j].kind
    case KeyPair => PairSoFar(specs, order, fs, draws, |order|, j, now);
    case Certificate =>
      ButSoFar(specs, order, fs, draws, |order|, j, now);
      SettledMeans(specs, now, order[j]);
    case Kubeconfig => ConfigSoFar(specs, order, fs, draws, |order|, j, now);
  }

  /**
   In any order of CAs, the run after a completed run is silent exactly when, besides, every certificate is signed
   by the key in its issuer's certificate as it is now.
   */
  lemma SecondRun(specs: seq<Spec>, order: seq<Spec>, fs: Store, first: seq<Draw>, second: seq<Draw>)
    requires AllStored(order) && Ranked(specs, order)
    requires |first| == |second| == |order| && Run(specs, order, fs, first).ok
    ensures var done := Run(specs, order, fs, first).fs;
            Calm(Run(specs, order, done, second)) <==>
              && AllQuiet(specs, order, done, second)
              && forall j :: 0 <= j < |order| ==> SignedAt(specs, order, done, j)
  {
    var done := Run(specs, order, fs, first).fs;
    SilentExactly(specs, order, done, second);
    ThroughIs(specs, order, fs, first, |order|, done);
    forall j | 0 <= j < |order| ensures SettledAt(specs, order, done, j) <==> SignedAt(specs, order, done, j) {
      SettledIfSigned(specs, order, fs, first, done, j);
    }
  }

  // ---------------------------------------------------------------- two runs settle everything

  /** From certificates that go with their keys, a signature once right stays so, even through the issuer's turn. */
  lemma SignedStays(specs: seq<Spec>, order: seq<Spec>, fs: Store, s: Spec, w: Spec, d: Draw, now: Store)
    requires Ranked(specs, order) && s.kind == Certificate && w in order && w.name != s.name
    requires CertSettled(specs, fs, s) && Turn(specs, fs, w, d, now) && (w.kind == Certificate ==> Keyed(fs, w))
    ensures CertSettled(specs, now, s)
  {
    IssuerStays(specs, order, fs, s, w, d, now);
    OwnFiles(specs, fs, s, w, d, now);
    if FindIssuer(specs, fs, s).value.By? && w.name == s.issuerRef {
      IssuerIs(specs, order, fs, s, w);
    }
  }

  lemma {:induction false} SignedSoFar(specs: seq<Spec>, order: seq<Spec>, fs: Store, draws: seq<Draw>, k: nat, j: nat,
                                       now: Store)
    requires AllStored(order) && Ranked(specs, order) && AllKeyed(order, fs)
    requires Through(specs, order, fs, draws, k, now) && j < k && j < |order| && order[j].kind == Certificate
    ensures CertSettled(specs, now, order[j])
  {
    var before := ThroughMore(specs, order, fs, draws, k, now);
    if j < k - 1 {
      SignedSoFar(specs, order, fs, draws, k - 1, j, before);
      if order[k - 1].kind == Certificate {
        KeyedSoFar(specs, order, fs, draws, k - 1, k - 1, before);
      }
      NamesDiffer(order, j, k - 1);
      SignedStays(specs, order, before, order[j], order[k - 1], draws[k - 1], now);
    } else {
      CertSettles(specs, before, order[j], draws[j], now);
    }
  }

  /** If all certificates went with their keys beforehand, one completed run settles everything in any order. */
  lemma KeyedSettles(specs: seq<Spec>, order: seq<Spec>, fs: Store, draws: seq<Draw>, now: Store)
    requires AllStored(order) && Ranked(specs, order) && AllKeyed(order, fs)
    requires Through(specs, order, fs, draws, |order|, now)
    ensures AllSettled(specs, order, now)
  {
    forall j | 0 <= j < |order| ensures SettledAt(specs, order, now, j) {
      SettledIfSigned(specs, order, fs, draws, now, j);
      if order[j].kind == Certificate {
        SignedSoFar(specs, order, fs, draws, |order|, j, now);
        SettledMeans(specs, now, order[j]);
      }
    }
  }

  /**
   However CAs sort, and however long the chains of issuers are, two completed runs settle everything: a third is
   silent exactly when no certificate has come due and no issuer is barred from certifying.
   */
  lemma ThirdRun(specs: seq<Spec>, order: seq<Spec>, fs: Store, first: seq<Draw>, second: seq<Draw>, third: seq<Draw>)
    requires AllStored(order) && Ranked(specs, order) && |first| == |second| == |third| == |order|
    requires Run(specs, order, fs, first).ok && Run(specs, order, Run(specs, order, fs, first).fs, second).ok
    ensures var done := Run(specs, order, Run(specs, order, fs, first).fs, second).fs;
            Calm(Run(specs, order, done, third)) <==> AllQuiet(specs, order, done, third)
  {
    var once := Run(specs, order, fs, first).fs;
    var twice := Run(specs, order, once, second).fs;
    ThroughIs(specs, order, fs, first, |order|, once);
    ThroughIs(specs, order, once, second, |order|, twice);
    RunKeys(specs, order, fs, first, once);
    KeyedSettles(specs, order, once, second, twice);
    SilentExactly(specs, order, twice, third);
  }

  // ---------------------------------------------------------------- and one run need not

  const LOWER: Spec := CertSpec("a", true, "b")
  const UPPER: Spec := CertSpec("b", true, "")

  function Pair(): seq<Spec> {
    [LOWER, UPPER]
  }

  /** A root that sorts behind the CA it issued, in order but for a new key that its certificate is not for. */
  function Rotated(key: Key, notAfter: int): Store {
    map[KeyOf(LOWER) := KeyPem(1, 0), CrtOf(LOWER) := CertPem(CertFor(LOWER, 1, 2, true, notAfter), 0),
        KeyOf(UPPER) := KeyPem(key, 0), CrtOf(UPPER) := CertPem(CertFor(UPPER, 2, 2, true, notAfter), 0)]
  }

  lemma PairIsRanked()
    ensures Ranked(Pair(), Pair()) && AllStored(Pair()) && Find(Pair(), "b") == Some(UPPER)
  {
    assert Pair()[1..] == [UPPER];
  }

  /** The first run leaves the CA to its old signature and then gives the root a certificate for the new key. */
  lemma RotatedRun(limit: int, draws: seq<Draw>)
    requires |draws| == 2 && draws[0].now <= limit
    ensures var o := Run(Pair(), Pair(), Rotated(3, limit + RENEWAL), draws);
            o.ok && !SignedNow(Pair(), o.fs, LOWER)
  {
    PairIsRanked();
    var fs := Rotated(3, limit + RENEWAL);
    assert Steps(Pair(), Pair(), fs, draws, 1) == Keep(fs) by {
      LeftAlone(Pair(), fs, LOWER, draws[0]);
    }
    UpperRotated(fs, limit, draws[1]);
  }

  lemma UpperRotated(fs: Store, limit: int, d: Draw)
    requires fs == Rotated(3, limit + RENEWAL)
    ensures var o := Reconcile(Pair(), fs, UPPER, d); o.ok && !SignedNow(Pair(), o.fs, LOWER)
  {
    PairIsRanked();
  }

  /** So one completed run is not enough: the second writes, though nothing is due and no issuer is barred. */
  lemma OneRunTooFew(limit: int, first: seq<Draw>, second: seq<Draw>)
    requires |first| == |second| == 2 && first[0].now <= limit
    ensures Ranked(Pair(), Pair()) && AllStored(Pair())
    ensures var o := Run(Pair(), Pair(), Rotated(3, limit + RENEWAL), first);
            o.ok && !Calm(Run(Pair(), Pair(), o.fs, second))
  {
    PairIsRanked();
    RotatedRun(limit, first);
    var done := Run(Pair(), Pair(), Rotated(3, limit + RENEWAL), first).fs;
    SecondRun(Pair(), Pair(), Rotated(3, limit + RENEWAL), first, second);
    assert !SignedAt(Pair(), Pair(), done, 0);
  }

  // ---------------------------------------------------------------- runs that never complete

  /** A CA at k is issued by the one at j, its own place or one behind, whose certificate does not exist yet. */
  ghost predicate Waits(order: seq<Spec>, fs: Store, k: nat, j: nat) {
    && k <= j < |order| && order[k].kind == Certificate && order[k].isCA
    && order[k].issuerRef == order[j].name && order[k].issuerRef != ""
    && LoadCert(fs, CrtOf(order[j])).None?
  }

  lemma {:induction false} NotPast(specs: seq<Spec>, order: seq<Spec>, fs: Store, draws: seq<Draw>, n: nat,
                                   k: nat, j: nat)
    requires |draws| == |order| && n <= |draws| && DistinctNames(order) && Waits(order, fs, k, j)
    ensures LoadCert(Steps(specs, order, fs, draws, n).fs, CrtOf(order[j])).None?
    ensures n > k ==> !Steps(specs, order, fs, draws, n).ok
  {
    if n > 0 {
      NotPast(specs, order, fs, draws, n - 1, k, j);
      var o := Steps(specs, order, fs, draws, n - 1);
      if n - 1 < k {
        OnlyOwn(specs, o.fs, order[n - 1], draws[n - 1]);
      } else if n - 1 == k {
        assert FindIssuer(specs, o.fs, order[k]).Err?;
      }
    }
  }

  /** If a CA waits for a certificate of one behind it, every run fails, however many went before. */
  lemma {:induction false} NeverCompletes(specs: seq<Spec>, order: seq<Spec>, fs: Store, ds: seq<seq<Draw>>,
                                          next: seq<Draw>, k: nat, j: nat)
    requires |next| == |order| && forall i :: 0 <= i < |ds| ==> |ds[i]| == |order|
    requires DistinctNames(order) && Waits(order, fs, k, j)
    ensures Waits(order, Runs(specs, order, fs, ds), k, j)
    ensures !Run(specs, order, Runs(specs, order, fs, ds), next).ok
  {
    if ds != [] {
      var before, last := ds[..|ds| - 1], ds[|ds| - 1];
      NeverCompletes(specs, order, fs, before, last, k, j);
      NotPast(specs, order, Runs(specs, order, fs, before), last, |order|, k, j);
    }
    NotPast(specs, order, Runs(specs, order, fs, ds), next, |order|, k, j);
  }
}
