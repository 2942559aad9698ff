/** Whole runs of the reconciler: the four passes, convergence, and what follows a lost CA key. */
module PkiRun {
  import opened Wrappers
  import opened Hiding
  import opened PkiStore
  import opened Pki

  // ---------------------------------------------------------------- processing order

  function Rank(s: Spec): nat {
    match s.kind
    case KeyPair => 0
    case Certificate => if s.isCA then 1 else 2
    case Kubeconfig => 3
  }

  /** The specs a pass takes, in their sorted order. */
  function Pass(specs: seq<Spec>, rank: nat): seq<Spec> {
    if specs == [] then
      []
    else
      Pass(specs[..|specs| - 1], rank) + (if Rank(specs[|specs| - 1]) == rank then [specs[|specs| - 1]] else [])
  }

  lemma {:induction false} InPass(specs: seq<Spec>, rank: nat, s: Spec)
    ensures s in Pass(specs, rank) <==> s in specs && Rank(s) == rank
  {
    if specs != [] {
      InPass(specs[..|specs| - 1], rank, s);
      assert specs == specs[..|specs| - 1] + [specs[|specs| - 1]];
    }
  }

  function Order(specs: seq<Spec>): seq<Spec> {
    Pass(specs, 0) + Pass(specs, 1) + Pass(specs, 2) + Pass(specs, 3)
  }

  ghost predicate DistinctNames(specs: seq<Spec>) {
    forall i, j :: 0 <= i < j < |specs| ==> specs[i].name != specs[j].name
  }

  ghost predicate ByRank(order: seq<Spec>) {
    forall i, j :: 0 <= i < j < |order| ==> Rank(order[i]) <= Rank(order[j])
  }

  lemma {:induction false} PassDistinct(specs: seq<Spec>, rank: nat)
    requires DistinctNames(specs)
    ensures DistinctNames(Pass(specs, rank))
  {
    if specs != [] {
      var init, last := specs[..|specs| - 1], specs[|specs| - 1];
      PassDistinct(init, rank);
      forall s | s in Pass(init, rank) ensures s.name != last.name {
        InPass(init, rank, s);
        assert s in init;
      }
    }
  }

  lemma Concat(a: seq<Spec>, b: seq<Spec>, rank: nat)
    requires DistinctNames(a) && DistinctNames(b) && ByRank(a)
    requires forall s :: s in a ==> Rank(s) < rank
    requires forall s :: s in b ==> Rank(s) == rank
    requires forall s, t :: s in a && t in b ==> s.name != t.name
    ensures DistinctNames(a + b) && ByRank(a + b)
  {
  }

  lemma NamesApart(specs: seq<Spec>, s: Spec, t: Spec)
    requires DistinctNames(specs) && s in specs && t in specs && s != t
    ensures s.name != t.name
  {
  }

  /** The order holds every spec once, lower passes first. */
  lemma OrderOk(specs: seq<Spec>)
    requires DistinctNames(specs)
    ensures DistinctNames(Order(specs)) && ByRank(Order(specs))
    ensures forall s :: s in Order(specs) <==> s in specs
  {
    forall r | 0 <= r < 4 ensures DistinctNames(Pass(specs, r)) {
      PassDistinct(specs, r);
    }
    forall r, s | 0 <= r < 4 ensures s in Pass(specs, r) <==> s in specs && Rank(s) == r {
      InPass(specs, r, s);
    }
    forall s, t | s in specs && t in specs && s != t ensures s.name != t.name {
      NamesApart(specs, s, t);
    }
    Concat(Pass(specs, 0), Pass(specs, 1), 1);
    Concat(Pass(specs, 0) + Pass(specs, 1), Pass(specs, 2), 2);
    Concat(Pass(specs, 0) + Pass(specs, 1) + Pass(specs, 2), Pass(specs, 3), 3);
  }

  /** Key pairs come before CAs, CAs before other certificates, and those before kubeconfigs. */
  lemma KindsInOrder(specs: seq<Spec>, i: nat, j: nat)
    requires DistinctNames(specs) && i < j < |Order(specs)|
    ensures var s, t := Order(specs)[i], Order(specs)[j];
            && (t.kind == KeyPair ==> s.kind == KeyPair)
            && (t.kind == Certificate ==> s.kind != Kubeconfig && (t.isCA && s.kind == Certificate ==> s.isCA))
  {
    OrderOk(specs);
  }

  /** Within a pass specs keep the order they were loaded in. */
  lemma {:induction false} PassKeepsOrder(specs: seq<Spec>, rank: nat, i: nat, j: nat) returns (a: nat, b: nat)
    requires i < j < |Pass(specs, rank)|
    ensures a < b < |specs| && specs[a] == Pass(specs, rank)[i] && specs[b] == Pass(specs, rank)[j]
  {
    var n := |specs| - 1;
    if j < |Pass(specs[..n], rank)| {
      a, b := PassKeepsOrder(specs[..n], rank, i, j);
    } else {
      InPass(specs[..n], rank, Pass(specs[..n], rank)[i]);
      a, b :| 0 <= a < n && specs[..n][a] == Pass(specs[..n], rank)[i] && b == n;
    }
  }

  /** Every CA with an issuer comes after it; for leaf certificates the passes see to that. */
  ghost predicate IssuersFirst(order: seq<Spec>) {
    forall k :: 0 <= k < |order| && order[k].kind == Certificate && order[k].isCA && order[k].issuerRef != "" ==>
      exists j :: 0 <= j < k && order[j].name == order[k].issuerRef
  }

  lemma {:induction false} FindMeans(specs: seq<Spec>, name: string)
    ensures Find(specs, name).Some? ==> Find(specs, name).value in specs && Find(specs, name).value.name == name
  {
    if specs != [] {
      FindMeans(specs[1..], name);
    }
  }

  /** Every spec once, lower passes first. */
  ghost predicate Ranked(specs: seq<Spec>, order: seq<Spec>) {
    DistinctNames(order) && ByRank(order) && forall s :: s in order <==> s in specs
  }

  /** And each CA after its issuer. */
  ghost predicate GoodOrder(specs: seq<Spec>, order: seq<Spec>) {
    Ranked(specs, order) && IssuersFirst(order)
  }

  ghost predicate AllStored(order: seq<Spec>) {
    forall k :: 0 <= k < |order| ==> StoresAll(order[k])
  }

  /** The order of the four passes is such an order when CA specs sort after their issuers. */
  lemma PassesAreGood(specs: seq<Spec>)
    requires DistinctNames(specs) && IssuersFirst(Order(specs))
    ensures GoodOrder(specs, Order(specs))
  {
    OrderOk(specs);
  }

  /** A certificate's issuer, if it has one and the lookup finds it, was reconciled before. */
  lemma IssuerBefore(specs: seq<Spec>, order: seq<Spec>, fs: Store, k: nat) returns (j: nat)
    requires GoodOrder(specs, order) && k < |order|
    requires order[k].kind == Certificate
    requires FindIssuer(specs, fs, order[k]).Ok? && FindIssuer(specs, fs, order[k]).value.By?
    ensures j < k && order[j].name == order[k].issuerRef
    ensures order[j].kind == Certificate && order[j].isCA
  {
    var s := order[k];
    FindMeans(specs, s.issuerRef);
    var i := Find(specs, s.issuerRef).value;
    assert i in order;
    j :| 0 <= j < |order| && order[j] == i;
    if s.isCA {
      var m :| 0 <= m < k && order[m].name == s.issuerRef;
    } else {
      assert Rank(order[j]) < Rank(order[k]);
    }
  }

  // ---------------------------------------------------------------- runs

  /** The first k reconciles of a run; the first failure ends it. */
  function Steps(specs: seq<Spec>, order: seq<Spec>, fs: Store, draws: seq<Draw>, k: nat): Outcome
    requires |draws| == |order| && k <= |draws|
  {
    if k == 0 then
      Keep(fs)
    else
      var o := Steps(specs, order, fs, draws, k - 1);
      if !o.ok then o
      else
        var r := Reconcile(specs, o.fs, order[k - 1], draws[k - 1]);
        r.(wrote := o.wrote + r.wrote)
  }

  function Run(specs: seq<Spec>, order: seq<Spec>, fs: Store, draws: seq<Draw>): Outcome
    requires |draws| == |order|
  {
    Steps(specs, order, fs, draws, |draws|)
  }

  ghost predicate TurnUnder(seal: Seal, specs: seq<Spec>, fs: Store, w: Spec, d: Draw, now: Store) {
    Reconcile(specs, fs, w, d).ok && now == Reconcile(specs, fs, w, d).fs
  }

  /** w's reconcile finishes and makes now of fs. */
  ghost predicate Turn(specs: seq<Spec>, fs: Store, w: Spec, d: Draw, now: Store) {
    forall seal: Seal :: TurnUnder(seal, specs, fs, w, d, now)
  }

  lemma TurnIs(specs: seq<Spec>, fs: Store, w: Spec, d: Draw, now: Store)
    ensures Turn(specs, fs, w, d, now) <==> Reconcile(specs, fs, w, d).ok && now == Reconcile(specs, fs, w, d).fs
  {
    assert TurnUnder(Seal, specs, fs, w, d, now) <== Turn(specs, fs, w, d, now);
  }

  ghost predicate ThroughUnder(seal: Seal, specs: seq<Spec>, order: seq<Spec>, fs: Store, draws: seq<Draw>, k: nat,
                               now: Store)
  {
    && |draws| == |order| && k <= |draws|
    && Steps(specs, order, fs, draws, k).ok && now == Steps(specs, order, fs, draws, k).fs
  }

  /** k reconciles finish and make now of fs. */
  ghost predicate Through(specs: seq<Spec>, order: seq<Spec>, fs: Store, draws: seq<Draw>, k: nat, now: Store) {
    forall seal: Seal :: ThroughUnder(seal, specs, order, fs, draws, k, now)
  }

  lemma ThroughIs(specs: seq<Spec>, order: seq<Spec>, fs: Store, draws: seq<Draw>, k: nat, now: Store)
    ensures Through(specs, order, fs, draws, k, now) <==>
              && |draws| == |order| && k <= |draws|
              && Steps(specs, order, fs, draws, k).ok && now == Steps(specs, order, fs, draws, k).fs
  {
    assert ThroughUnder(Seal, specs, order, fs, draws, k, now) <== Through(specs, order, fs, draws, k, now);
  }

  lemma ThroughStart(specs: seq<Spec>, order: seq<Spec>, fs: Store, draws: seq<Draw>, now: Store)
    requires Through(specs, order, fs, draws, 0, now)
    ensures now == fs
  {
    ThroughIs(specs, order, fs, draws, 0, now);
  }

  lemma ThroughMore(specs: seq<Spec>, order: seq<Spec>, fs: Store, draws: seq<Draw>, k: nat, now: Store)
    returns (before: Store)
    requires k > 0 && Through(specs, order, fs, draws, k, now)
    ensures |draws| == |order| && k <= |draws| && Through(specs, order, fs, draws, k - 1, before)
    ensures Turn(specs, before, order[k - 1], draws[k - 1], now)
  {
    ThroughIs(specs, order, fs, draws, k, now);
    before := Steps(specs, order, fs, draws, k - 1).fs;
    ThroughIs(specs, order, fs, draws, k - 1, before);
    TurnIs(specs, before, order[k - 1], draws[k - 1], now);
  }

  /** The store after some runs, finished or failed. */
  function Runs(specs: seq<Spec>, order: seq<Spec>, fs: Store, ds: seq<seq<Draw>>): Store
    requires forall i :: 0 <= i < |ds| ==> |ds[i]| == |order|
  {
    if ds == [] then fs else Run(specs, order, Runs(specs, order, fs, ds[..|ds| - 1]), ds[|ds| - 1]).fs
  }

  /** No run, finished or failed, replaces a private key that can be loaded. */
  lemma {:induction false} KeysKept(specs: seq<Spec>, order: seq<Spec>, fs: Store, draws: seq<Draw>, k: nat, p: Path)
    requires |draws| == |order| && k <= |draws| && p.ext == DotKey && LoadKey(fs, p).Some?
    ensures Holds(Steps(specs, order, fs, draws, k).fs, p, fs[p])
  {
    if k > 0 {
      KeysKept(specs, order, fs, draws, k - 1, p);
      var o := Steps(specs, order, fs, draws, k - 1);
      if o.ok {
        KeyKept(specs, o.fs, order[k - 1], draws[k - 1], p);
      }
    }
  }

  lemma OthersKeepCert(specs: seq<Spec>, fs: Store, s: Spec, w: Spec, d: Draw)
    requires s.kind == Certificate && CertSettled(specs, fs, s) && w.name != s.name
    requires FindIssuer(specs, fs, s).value.By? ==> s.issuerRef != w.name
    ensures CertSettled(specs, Reconcile(specs, fs, w, d).fs, s)
  {
    OnlyOwn(specs, fs, w, d);
  }

  lemma OthersKeepConfig(specs: seq<Spec>, fs: Store, s: Spec, w: Spec, d: Draw)
    requires Settled(specs, fs, s) && w.name != s.name && s.kind == Kubeconfig && w.kind == Kubeconfig
    ensures Settled(specs, Reconcile(specs, fs, w, d).fs, s)
  {
    OnlyOwn(specs, fs, w, d);
  }

  /** Someone else's reconcile leaves a settled spec settled. */
  lemma OthersKeepSettled(specs: seq<Spec>, fs: Store, s: Spec, w: Spec, d: Draw)
    requires Settled(specs, fs, s) && w.name != s.name && (s.kind == Kubeconfig ==> w.kind == Kubeconfig)
    requires s.kind == Certificate && FindIssuer(specs, fs, s).value.By? ==> s.issuerRef != w.name
    ensures Settled(specs, Reconcile(specs, fs, w, d).fs, s)
  {
    match s.kind
    case KeyPair => OnlyOwn(specs, fs, w, d);
    case Certificate => OthersKeepCert(specs, fs, s, w, d);
    case Kubeconfig => OthersKeepConfig(specs, fs, s, w, d);
  }

  /** After k successful reconciles the first k specs are settled, all at once. */
  lemma {:induction false} SettledSoFar(specs: seq<Spec>, order: seq<Spec>, fs: Store, draws: seq<Draw>, k: nat, j: nat)
    requires |draws| == |order| && j < k <= |draws| && AllStored(order) && GoodOrder(specs, order)
    requires Steps(specs, order, fs, draws, k).ok
    ensures Settled(specs, Steps(specs, order, fs, draws, k).fs, order[j])
  {
    var o := Steps(specs, order, fs, draws, k - 1);
    var s, w := order[j], order[k - 1];
    if j < k - 1 {
      SettledSoFar(specs, order, fs, draws, k - 1, j);
      if s.kind == Certificate && FindIssuer(specs, o.fs, s).value.By? {
        var i := IssuerBefore(specs, order, o.fs, j);
      }
      OthersKeepSettled(specs, o.fs, s, w, draws[k - 1]);
    } else {
      Settles(specs, o.fs, w, draws[k - 1]);
    }
  }

  // ---------------------------------------------------------------- convergence

  /** No certificate is due when the run looks at it, and every issuer may certify. */
  ghost predicate AllQuiet(specs: seq<Spec>, order: seq<Spec>, fs: Store, draws: seq<Draw>)
    requires |draws| == |order|
  {
    forall j :: 0 <= j < |draws| ==> QuietAt(specs, order, fs, draws, j)
  }

  ghost predicate QuietAt(specs: seq<Spec>, order: seq<Spec>, fs: Store, draws: seq<Draw>, j: nat)
    requires |draws| == |order| && j < |draws|
  {
    Quiet(specs, fs, order[j], draws[j].now)
  }

  ghost predicate AllSettled(specs: seq<Spec>, order: seq<Spec>, fs: Store) {
    forall j :: 0 <= j < |order| ==> SettledAt(specs, order, fs, j)
  }

  ghost predicate SettledAt(specs: seq<Spec>, order: seq<Spec>, fs: Store, j: nat)
    requires j < |order|
  {
    Settled(specs, fs, order[j])
  }

  /** There is nothing to do for the first k specs. */
  ghost predicate StillSoFar(specs: seq<Spec>, order: seq<Spec>, fs: Store, draws: seq<Draw>, k: nat)
    requires |draws| == |order| && k <= |draws|
  {
    forall j :: 0 <= j < k ==> SettledAt(specs, order, fs, j) && QuietAt(specs, order, fs, draws, j)
  }

  predicate Calm(o: Outcome) {
    o.ok && o.wrote == {}
  }

  lemma CalmStep(specs: seq<Spec>, order: seq<Spec>, fs: Store, draws: seq<Draw>, k: nat)
    requires |draws| == |order| && 0 < k <= |draws|
    requires Calm(Steps(specs, order, fs, draws, k - 1)) ==> Steps(specs, order, fs, draws, k - 1).fs == fs
    ensures var r := Reconcile(specs, fs, order[k - 1], draws[k - 1]);
            && (Calm(Steps(specs, order, fs, draws, k)) <==> Calm(Steps(specs, order, fs, draws, k - 1)) && Calm(r))
            && (Calm(Steps(specs, order, fs, draws, k)) ==> Steps(specs, order, fs, draws, k).fs == r.fs)
  {
  }

  lemma StillNext(specs: seq<Spec>, order: seq<Spec>, fs: Store, draws: seq<Draw>, k: nat)
    requires |draws| == |order| && 0 < k <= |draws|
    ensures StillSoFar(specs, order, fs, draws, k) <==>
              && StillSoFar(specs, order, fs, draws, k - 1)
              && SettledAt(specs, order, fs, k - 1) && QuietAt(specs, order, fs, draws, k - 1)
  {
  }

  lemma {:induction false} CalmWhileStill(specs: seq<Spec>, order: seq<Spec>, fs: Store, draws: seq<Draw>, k: nat)
    requires |draws| == |order| && k <= |draws|
    ensures Calm(Steps(specs, order, fs, draws, k)) <==> StillSoFar(specs, order, fs, draws, k)
    ensures Calm(Steps(specs, order, fs, draws, k)) ==> Steps(specs, order, fs, draws, k).fs == fs
  {
    if k > 0 {
      CalmWhileStill(specs, order, fs, draws, k - 1);
      CalmStep(specs, order, fs, draws, k);
      LeftAlone(specs, fs, order[k - 1], draws[k - 1]);
      StillNext(specs, order, fs, draws, k);
    }
  }

  /** From any store at all, a run completes without writing exactly when every spec is settled and quiet. */
  lemma SilentExactly(specs: seq<Spec>, order: seq<Spec>, fs: Store, draws: seq<Draw>)
    requires |draws| == |order|
    ensures Calm(Run(specs, order, fs, draws)) <==> AllSettled(specs, order, fs) && AllQuiet(specs, order, fs, draws)
    ensures Calm(Run(specs, order, fs, draws)) ==> Run(specs, order, fs, draws).fs == fs
  {
    CalmWhileStill(specs, order, fs, draws, |draws|);
  }

  /**
   After a completed run another run completes without writing anything exactly when no
   certificate has come due and no issuer's certificate is barred from certifying.
   */
  lemma Convergence(specs: seq<Spec>, order: seq<Spec>, fs: Store, first: seq<Draw>, second: seq<Draw>)
    requires AllStored(order) && GoodOrder(specs, order)
    requires |first| == |second| == |order| && Run(specs, order, fs, first).ok
    ensures var done := Run(specs, order, fs, first).fs;
            && (Calm(Run(specs, order, done, second)) <==> AllQuiet(specs, order, done, second))
            && (Calm(Run(specs, order, done, second)) ==> Run(specs, order, done, second).fs == done)
  {
    var done := Run(specs, order, fs, first).fs;
    forall j | 0 <= j < |first| ensures SettledAt(specs, order, done, j) {
      SettledSoFar(specs, order, fs, first, |first|, j);
    }
    SilentExactly(specs, order, done, second);
  }

  /** A certificate is the one that was there, or one issued just now for its spec. */
  ghost predicate KeptOrIssued(s: Spec, was: Store, now: Store, d: Draw) {
    && LoadCert(now, CrtOf(s)).Some?
    && var c := LoadCert(now, CrtOf(s)).value;
       || (CrtOf(s) in was && Holds(now, CrtOf(s), was[CrtOf(s)]))
       || (Lifetime(s).Some? && c.certifies == s.isCA && c.notAfter == ToSeconds(d.now + Lifetime(s).value))
  }

  lemma ReconcileKeptOrIssued(specs: seq<Spec>, fs: Store, s: Spec, d: Draw)
    requires s.kind == Certificate && Reconcile(specs, fs, s, d).ok
    ensures KeptOrIssued(s, fs, Reconcile(specs, fs, s, d).fs, d)
  {
    var iss := FindIssuer(specs, fs, s).value;
    DriftMeans(specs, fs, s, d.now);
  }

  /** One more successful reconcile. */
  lemma StepsMore(specs: seq<Spec>, order: seq<Spec>, fs: Store, draws: seq<Draw>, k: nat)
    returns (before: Store, after: Store)
    requires |draws| == |order| && 0 < k <= |draws| && Steps(specs, order, fs, draws, k).ok
    ensures before == Steps(specs, order, fs, draws, k - 1).fs && Steps(specs, order, fs, draws, k - 1).ok
    ensures after == Steps(specs, order, fs, draws, k).fs
    ensures Reconcile(specs, before, order[k - 1], draws[k - 1]).ok
    ensures after == Reconcile(specs, before, order[k - 1], draws[k - 1]).fs
  {
    before, after := Steps(specs, order, fs, draws, k - 1).fs, Steps(specs, order, fs, draws, k).fs;
  }

  lemma KeptOrIssuedStays(specs: seq<Spec>, was: Store, now: Store, s: Spec, d: Draw, w: Spec, e: Draw)
    requires KeptOrIssued(s, was, now, d) && s.name != w.name
    ensures KeptOrIssued(s, was, Reconcile(specs, now, w, e).fs, d)
  {
    OnlyOwn(specs, now, w, e);
  }

  lemma KeptOrIssuedFrom(s: Spec, was: Store, mid: Store, now: Store, d: Draw)
    requires KeptOrIssued(s, mid, now, d)
    requires (CrtOf(s) in was <==> CrtOf(s) in mid) && (CrtOf(s) in was ==> mid[CrtOf(s)] == was[CrtOf(s)])
    ensures KeptOrIssued(s, was, now, d)
  {
  }

  /** After k successful reconciles s's certificate is an old one or one of draw d. */
  ghost predicate Origin(specs: seq<Spec>, order: seq<Spec>, fs: Store, draws: seq<Draw>, k: nat, s: Spec, d: Draw)
    requires |draws| == |order| && k <= |draws|
  {
    Steps(specs, order, fs, draws, k).ok ==> KeptOrIssued(s, fs, Steps(specs, order, fs, draws, k).fs, d)
  }

  lemma OriginStays(specs: seq<Spec>, order: seq<Spec>, fs: Store, draws: seq<Draw>, k: nat, s: Spec, d: Draw)
    requires |draws| == |order| && 0 < k <= |draws| && order[k - 1].name != s.name
    requires Origin(specs, order, fs, draws, k - 1, s, d)
    ensures Origin(specs, order, fs, draws, k, s, d)
  {
    if Steps(specs, order, fs, draws, k).ok {
      var before, after := StepsMore(specs, order, fs, draws, k);
      KeptOrIssuedStays(specs, fs, before, s, d, order[k - 1], draws[k - 1]);
    }
  }

  lemma OriginHere(specs: seq<Spec>, order: seq<Spec>, fs: Store, draws: seq<Draw>, j: nat)
    requires |draws| == |order| && j < |draws| && DistinctNames(order) && order[j].kind == Certificate
    ensures Origin(specs, order, fs, draws, j + 1, order[j], draws[j])
  {
    if Steps(specs, order, fs, draws, j + 1).ok {
      var before, after := StepsMore(specs, order, fs, draws, j + 1);
      ReconcileKeptOrIssued(specs, before, order[j], draws[j]);
      BeforeOwnTurn(specs, order, fs, draws, j);
      KeptOrIssuedFrom(order[j], fs, before, after, draws[j]);
    }
  }

  /** From its own turn on, a certificate keeps its origin. */
  lemma {:induction false} CertOrigin(specs: seq<Spec>, order: seq<Spec>, fs: Store, draws: seq<Draw>, k: nat, j: nat)
    requires |draws| == |order| && j < k <= |draws| && DistinctNames(order) && order[j].kind == Certificate
    ensures Origin(specs, order, fs, draws, k, order[j], draws[j])
  {
    if j < k - 1 {
      CertOrigin(specs, order, fs, draws, k - 1, j);
      OriginStays(specs, order, fs, draws, k, order[j], draws[j]);
    } else {
      OriginHere(specs, order, fs, draws, j);
    }
  }

  /** Before a spec's turn its files are as the run found them. */
  lemma BeforeOwnTurn(specs: seq<Spec>, order: seq<Spec>, fs: Store, draws: seq<Draw>, j: nat)
    requires |draws| == |order| && j < |draws| && DistinctNames(order)
    ensures var p, now := CrtOf(order[j]), Steps(specs, order, fs, draws, j).fs;
            (p in fs <==> p in now) && (p in fs ==> now[p] == fs[p])
  {
    OthersFiles(specs, order, fs, draws, j, CrtOf(order[j]));
  }

  /**
   What a caller can see before the first run: no old certificate comes due or is an unfit CA, and lifetimes
   leave room.
   */
  ghost predicate Comfortable(specs: seq<Spec>, order: seq<Spec>, fs: Store, first: seq<Draw>,
                              second: seq<Draw>, j: nat)
    requires |first| == |second| == |order| && j < |first|
  {
    var s := order[j];
    s.kind == Certificate ==>
      && (LoadCert(fs, CrtOf(s)).Some? ==>
            !Due(LoadCert(fs, CrtOf(s)).value, second[j].now) && (s.isCA ==> LoadCert(fs, CrtOf(s)).value.certifies))
      && (Lifetime(s).Some? ==> second[j].now + RENEWAL + SECOND <= first[j].now + Lifetime(s).value)
  }

  lemma StaysQuiet(specs: seq<Spec>, s: Spec, was: Store, now: Store, d: Draw, later: int)
    requires KeptOrIssued(s, was, now, d)
    requires LoadCert(was, CrtOf(s)).Some? ==>
               !Due(LoadCert(was, CrtOf(s)).value, later) && (s.isCA ==> LoadCert(was, CrtOf(s)).value.certifies)
    requires Lifetime(s).Some? ==> later + RENEWAL + SECOND <= d.now + Lifetime(s).value
    ensures !Due(LoadCert(now, CrtOf(s)).value, later) && (s.isCA ==> LoadCert(now, CrtOf(s)).value.certifies)
  {
  }

  /** Then the run after a completed run writes nothing. */
  lemma ConvergesComfortably(specs: seq<Spec>, order: seq<Spec>, fs: Store, first: seq<Draw>, second: seq<Draw>)
    requires AllStored(order) && GoodOrder(specs, order)
    requires |first| == |second| == |order| && Run(specs, order, fs, first).ok
    requires forall j :: 0 <= j < |first| ==> Comfortable(specs, order, fs, first, second, j)
    ensures Calm(Run(specs, order, Run(specs, order, fs, first).fs, second))
  {
    var done := Run(specs, order, fs, first).fs;
    forall j | 0 <= j < |second| ensures QuietAt(specs, order, done, second, j) {
      QuietLater(specs, order, fs, first, second, j);
    }
    Convergence(specs, order, fs, first, second);
  }

  lemma FitLater(specs: seq<Spec>, order: seq<Spec>, fs: Store, first: seq<Draw>, second: seq<Draw>, j: nat)
    requires AllStored(order) && GoodOrder(specs, order)
    requires |first| == |second| == |order| && Run(specs, order, fs, first).ok
    requires j < |second| && order[j].kind == Certificate && Comfortable(specs, order, fs, first, second, j)
    ensures var done, s := Run(specs, order, fs, first).fs, order[j];
            && CertSettled(specs, done, s)
            && !Due(LoadCert(done, CrtOf(s)).value, second[j].now)
            && (s.isCA ==> LoadCert(done, CrtOf(s)).value.certifies)
  {
    SettledSoFar(specs, order, fs, first, |first|, j);
    CertOrigin(specs, order, fs, first, |first|, j);
    StaysQuiet(specs, order[j], fs, Run(specs, order, fs, first).fs, first[j], second[j].now);
  }

  lemma QuietLater(specs: seq<Spec>, order: seq<Spec>, fs: Store, first: seq<Draw>, second: seq<Draw>, j: nat)
    requires AllStored(order) && GoodOrder(specs, order)
    requires |first| == |second| == |order| && Run(specs, order, fs, first).ok && j < |second|
    requires forall i :: 0 <= i < |first| ==> Comfortable(specs, order, fs, first, second, i)
    ensures Quiet(specs, Run(specs, order, fs, first).fs, order[j], second[j].now)
  {
    var done, s := Run(specs, order, fs, first).fs, order[j];
    if s.kind == Certificate {
      FitLater(specs, order, fs, first, second, j);
      if FindIssuer(specs, done, s).value.By? {
        var i := IssuerBefore(specs, order, done, j);
        FitLater(specs, order, fs, first, second, i);
      }
    }
  }

  /** A settled self-signed CA certificate is fit to certify. */
  lemma SettledCertifies(specs: seq<Spec>, fs: Store, s: Spec)
    requires s.kind == Certificate && CertSettled(specs, fs, s) && FindIssuer(specs, fs, s).value.Self?
    ensures LoadCert(fs, CrtOf(s)).value.certifies
    ensures forall now :: Quiet(specs, fs, s, now) <==> !Due(LoadCert(fs, CrtOf(s)).value, now)
  {
  }

  /** So is a CA certificate a run issued, wherever it sorts: one that is not fit was there before the run. */
  lemma UnfitWasThere(specs: seq<Spec>, order: seq<Spec>, fs: Store, draws: seq<Draw>, j: nat)
    requires DistinctNames(order) && |draws| == |order| && Run(specs, order, fs, draws).ok
    requires j < |draws| && order[j].kind == Certificate && order[j].isCA
    ensures var done, p := Run(specs, order, fs, draws).fs, CrtOf(order[j]);
            && LoadCert(done, p).Some?
            && (!LoadCert(done, p).value.certifies ==> p in fs && done[p] == fs[p])
  {
    CertOrigin(specs, order, fs, draws, |draws|, j);
  }

  /** The store holds no CA certificate that is not fit to certify. */
  ghost predicate FitCAs(order: seq<Spec>, fs: Store) {
    forall j :: 0 <= j < |order| && order[j].kind == Certificate && order[j].isCA ==> FitCA(fs, order[j])
  }

  predicate FitCA(fs: Store, s: Spec) {
    LoadCert(fs, CrtOf(s)).Some? ==> LoadCert(fs, CrtOf(s)).value.certifies
  }

  ghost predicate NotDueAt(order: seq<Spec>, fs: Store, draws: seq<Draw>, j: nat)
    requires |draws| == |order| && j < |draws|
  {
    order[j].kind == Certificate ==>
      LoadCert(fs, CrtOf(order[j])).Some? && !Due(LoadCert(fs, CrtOf(order[j])).value, draws[j].now)
  }

  lemma QuietIfFit(specs: seq<Spec>, order: seq<Spec>, fs: Store, first: seq<Draw>, second: seq<Draw>, j: nat)
    requires AllStored(order) && GoodOrder(specs, order) && |first| == |second| == |order|
    requires Run(specs, order, fs, first).ok && FitCAs(order, fs) && j < |second|
    ensures var done := Run(specs, order, fs, first).fs;
            QuietAt(specs, order, done, second, j) <==> NotDueAt(order, done, second, j)
  {
    var done, s := Run(specs, order, fs, first).fs, order[j];
    SettledSoFar(specs, order, fs, first, |first|, j);
    if s.kind == Certificate {
      if FindIssuer(specs, done, s).value.By? {
        var i := IssuerBefore(specs, order, done, j);
        UnfitWasThere(specs, order, fs, first, i);
        assert FitCA(fs, order[i]);
      } else {
        SettledCertifies(specs, done, s);
      }
    }
  }

  /**
   Only foreign CA certificates bar convergence: without one, the next run is silent exactly until a certificate
   is due.
   */
  lemma SilentUntilDue(specs: seq<Spec>, order: seq<Spec>, fs: Store, first: seq<Draw>, second: seq<Draw>)
    requires AllStored(order) && GoodOrder(specs, order) && |first| == |second| == |order|
    requires Run(specs, order, fs, first).ok && FitCAs(order, fs)
    ensures var done := Run(specs, order, fs, first).fs;
            Calm(Run(specs, order, done, second)) <==>
              forall j :: 0 <= j < |second| ==> NotDueAt(order, done, second, j)
  {
    Convergence(specs, order, fs, first, second);
    forall j | 0 <= j < |second|
      ensures var done := Run(specs, order, fs, first).fs;
              QuietAt(specs, order, done, second, j) <==> NotDueAt(order, done, second, j)
    {
      QuietIfFit(specs, order, fs, first, second, j);
    }
  }

  /** The same for the four passes over specs with distinct names in which CAs sort after their issuers. */
  lemma PassesConverge(specs: seq<Spec>, fs: Store, first: seq<Draw>, second: seq<Draw>)
    requires DistinctNames(specs) && IssuersFirst(Order(specs)) && AllStored(Order(specs))
    requires |first| == |second| == |Order(specs)| && Run(specs, Order(specs), fs, first).ok
    ensures var order, done := Order(specs), Run(specs, Order(specs), fs, first).fs;
            && (Calm(Run(specs, order, done, second)) <==> AllQuiet(specs, order, done, second))
            && (FitCAs(order, fs) ==>
                  (Calm(Run(specs, order, done, second)) <==>
                     forall j :: 0 <= j < |second| ==> NotDueAt(order, done, second, j)))
  {
    PassesAreGood(specs);
    Convergence(specs, Order(specs), fs, first, second);
    if FitCAs(Order(specs), fs) {
      SilentUntilDue(specs, Order(specs), fs, first, second);
    }
  }

  /** Under an issuer that is not fit a certificate is never left alone. */
  lemma ForeignIntermediate(specs: seq<Spec>, fs: Store, s: Spec, d: Draw)
    requires s.kind == Certificate && FindIssuer(specs, fs, s).Ok? && FindIssuer(specs, fs, s).value.By?
    requires !FindIssuer(specs, fs, s).value.cert.certifies
    ensures !Calm(Reconcile(specs, fs, s, d))
    ensures Reconcile(specs, fs, s, d).ok ==> CrtOf(s) in Reconcile(specs, fs, s, d).wrote
  {
  }

  // ---------------------------------------------------------------- after a lost or replaced CA key

  /** A completed run leaves every issued certificate signed by its CA's present key, and for its own present key. */
  lemma CascadeCertificates(specs: seq<Spec>, order: seq<Spec>, fs: Store, draws: seq<Draw>, k: nat)
    requires AllStored(order) && GoodOrder(specs, order) && |draws| == |order|
    requires Run(specs, order, fs, draws).ok && k < |draws| && order[k].kind == Certificate
    ensures var done, s := Run(specs, order, fs, draws).fs, order[k];
            && LoadCert(done, CrtOf(s)).Some? && LoadKey(done, KeyOf(s)) == Some(LoadCert(done, CrtOf(s)).value.pub)
            && (s.isCA && s.issuerRef == "" ==> LoadKey(done, KeyOf(s)) == Some(LoadCert(done, CrtOf(s)).value.signer))
            && (!s.isCA || s.issuerRef != "" ==>
                  LoadKey(done, Path(s.issuerRef, DotKey)) == Some(LoadCert(done, CrtOf(s)).value.signer))
  {
    var done, s := Run(specs, order, fs, draws).fs, order[k];
    SettledSoFar(specs, order, fs, draws, |draws|, k);
    if FindIssuer(specs, done, s).value.By? {
      var j := IssuerBefore(specs, order, done, k);
      SettledSoFar(specs, order, fs, draws, |draws|, j);
    }
  }

  lemma ConfigStays(specs: seq<Spec>, fs: Store, s: Spec, w: Spec, d: Draw, now: Store)
    requires Settled(specs, fs, s) && w.name != s.name && s.kind == Kubeconfig && w.kind == Kubeconfig
    requires Turn(specs, fs, w, d, now)
    ensures Settled(specs, now, s)
  {
    TurnIs(specs, fs, w, d, now);
    OthersKeepConfig(specs, fs, s, w, d);
  }

  lemma ConfigSettles(specs: seq<Spec>, fs: Store, s: Spec, d: Draw, now: Store)
    requires s.kind == Kubeconfig && Turn(specs, fs, s, d, now)
    ensures Settled(specs, now, s)
  {
    TurnIs(specs, fs, s, d, now);
  }

  /** A kubeconfig keeps what it was given: behind it come only kubeconfigs. */
  lemma {:induction false} ConfigSoFar(specs: seq<Spec>, order: seq<Spec>, fs: Store, draws: seq<Draw>, k: nat, j: nat,
                                       now: Store)
    requires j < k && Ranked(specs, order) && Through(specs, order, fs, draws, k, now)
    requires j < |order| && order[j].kind == Kubeconfig
    ensures Settled(specs, now, order[j])
  {
    var before := ThroughMore(specs, order, fs, draws, k, now);
    if j < k - 1 {
      ConfigSoFar(specs, order, fs, draws, k - 1, j, before);
      assert Rank(order[j]) <= Rank(order[k - 1]);
      ConfigStays(specs, before, order[j], order[k - 1], draws[k - 1], now);
    } else {
      ConfigSettles(specs, before, order[j], draws[j], now);
    }
  }

  /** And, in whatever order CAs sort, every kubeconfig carrying the certificates and key that are there at the end. */
  lemma CascadeKubeconfigs(specs: seq<Spec>, order: seq<Spec>, fs: Store, draws: seq<Draw>, k: nat)
    requires Ranked(specs, order) && |draws| == |order|
    requires Run(specs, order, fs, draws).ok && k < |draws| && order[k].kind == Kubeconfig
    ensures var done, s := Run(specs, order, fs, draws).fs, order[k];
            && Path(s.caRef, DotCrt) in done && Path(s.clientRef, DotCrt) in done && Path(s.clientRef, DotKey) in done
            && LoadCert(done, Path(s.clientRef, DotCrt)).Some? && Path(s.name, DotKubeconfig) in done
            && var c := done[Path(s.name, DotKubeconfig)];
               && c.Config? && c.server == s.server && c.context == s.name
               && c.user == LoadCert(done, Path(s.clientRef, DotCrt)).value.commonName
               && c.ca == done[Path(s.caRef, DotCrt)]
               && c.clientCert == done[Path(s.clientRef, DotCrt)] && c.clientKey == done[Path(s.clientRef, DotKey)]
  {
    var done := Run(specs, order, fs, draws).fs;
    ThroughIs(specs, order, fs, draws, |draws|, done);
    ConfigSoFar(specs, order, fs, draws, |draws|, k, done);
  }

  /** A file no reconcile of the run owns is as it was. */
  lemma {:induction false} OthersFiles(specs: seq<Spec>, order: seq<Spec>, fs: Store, draws: seq<Draw>, k: nat, p: Path)
    requires |draws| == |order| && k <= |draws| && forall j :: 0 <= j < k ==> !Owns(order[j], p)
    ensures var done := Steps(specs, order, fs, draws, k).fs; (p in fs <==> p in done) && (p in fs ==> done[p] == fs[p])
  {
    if k > 0 {
      OthersFiles(specs, order, fs, draws, k - 1, p);
      var o := Steps(specs, order, fs, draws, k - 1);
      if o.ok {
        OnlyOwn(specs, o.fs, order[k - 1], draws[k - 1]);
      }
    }
  }
}
