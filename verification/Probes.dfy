/** One probe on its schedule: the two counters, the reports, readiness and kills. */
module Probes {
  datatype Kind = Startup | Readiness | Liveness

  datatype Thresholds = Thresholds(success: int, failure: int)

  function SuccessAt(t: Thresholds): (n: nat)
    ensures n > 0
  {
    if t.success <= 0 then 1 else t.success
  }

  function FailureAt(t: Thresholds): (n: nat)
    ensures n > 0
  {
    if t.failure <= 0 then 3 else t.failure
  }

  function NeededFor(t: Thresholds, healthy: bool): (n: nat)
    ensures n > 0
  {
    if healthy then SuccessAt(t) else FailureAt(t)
  }

  /** A threshold that is given counts; otherwise one success and three failures do. */
  lemma ThresholdsAre(t: Thresholds)
    ensures NeededFor(t, true) == if t.success > 0 then t.success else 1
    ensures NeededFor(t, false) == if t.failure > 0 then t.failure else 3
  {
  }

  // ---------------------------------------------------------------- the counters

  datatype Counters = Counters(successes: nat, failures: nat)

  datatype Report = Nothing | Healthy | Unhealthy

  /** What the loop does with one outcome. */
  function Count(c: Counters, ok: bool, t: Thresholds, kind: Kind): (r: (Counters, Report)) {
    if ok then
      (Counters(c.successes + 1, 0), if c.successes + 1 == SuccessAt(t) then Healthy else Nothing)
    else if c.failures + 1 == FailureAt(t) then
      (if kind == Readiness then Counters(0, c.failures + 1) else Counters(0, 0), Unhealthy)
    else
      (Counters(0, c.failures + 1), Nothing)
  }

  function CountersAfter(os: seq<bool>, n: nat, t: Thresholds, kind: Kind): Counters
    requires n <= |os|
  {
    if n == 0 then Counters(0, 0) else Count(CountersAfter(os, n - 1, t, kind), os[n - 1], t, kind).0
  }

  function ReportAt(os: seq<bool>, i: nat, t: Thresholds, kind: Kind): Report
    requires i < |os|
  {
    Count(CountersAfter(os, i, t, kind), os[i], t, kind).1
  }

  // ---------------------------------------------------------------- readiness

  /** The last k outcomes before n were all as ok says. */
  predicate Streak(os: seq<bool>, n: nat, k: nat, ok: bool)
    requires n <= |os|
  {
    k <= n && forall j :: n - k <= j < n ==> os[j] == ok
  }

  /** The verdict of the most recent run of outcomes that reached its threshold, or the initial value. */
  function Verdict(os: seq<bool>, n: nat, t: Thresholds, initial: bool): bool
    requires n <= |os|
  {
    if n == 0 then initial
    else if Streak(os, n, NeededFor(t, os[n - 1]), os[n - 1]) then os[n - 1]
    else Verdict(os, n - 1, t, initial)
  }

  /** Readiness as the reports set it. */
  function ReadyAfter(os: seq<bool>, n: nat, t: Thresholds, initial: bool): bool
    requires n <= |os|
  {
    if n == 0 then initial
    else match ReportAt(os, n - 1, t, Readiness)
         case Nothing => ReadyAfter(os, n - 1, t, initial)
         case Healthy => true
         case Unhealthy => false
  }

  /** The counters of a readiness probe measure the current run. */
  lemma {:induction false} CountersMeasure(os: seq<bool>, n: nat, t: Thresholds)
    requires n <= |os|
    ensures var c := CountersAfter(os, n, t, Readiness);
            && c.successes <= n && c.failures <= n
            && Streak(os, n, c.successes, true) && Streak(os, n, c.failures, false)
            && (c.successes < n ==> !os[n - c.successes - 1]) && (c.failures < n ==> os[n - c.failures - 1])
  {
    if n > 0 {
      CountersMeasure(os, n - 1, t);
    }
  }

  /** A run past its threshold has already had its say. */
  lemma {:induction false} SettledRun(os: seq<bool>, n: nat, t: Thresholds, initial: bool)
    requires 0 < n <= |os| && Streak(os, n, NeededFor(t, os[n - 1]), os[n - 1])
    ensures ReadyAfter(os, n, t, initial) == os[n - 1]
    decreases n
  {
    var ok := os[n - 1];
    CountersMeasure(os, n - 1, t);
    var k := NeededFor(t, ok);
    if ReportAt(os, n - 1, t, Readiness) == Nothing {
      var c := CountersAfter(os, n - 1, t, Readiness);
      var run := if ok then c.successes else c.failures;
      assert run + 1 > k;
      assert os[n - 2] == ok;
      assert Streak(os, n - 1, k, ok);
      SettledRun(os, n - 1, t, initial);
    }
  }

  /** Hysteresis: at every moment readiness is the verdict of the latest run that reached its threshold. */
  lemma {:induction false} ReadyIsVerdict(os: seq<bool>, n: nat, t: Thresholds, initial: bool)
    requires n <= |os|
    ensures ReadyAfter(os, n, t, initial) == Verdict(os, n, t, initial)
  {
    if n > 0 {
      ReadyIsVerdict(os, n - 1, t, initial);
      CountersMeasure(os, n - 1, t);
      if Streak(os, n, NeededFor(t, os[n - 1]), os[n - 1]) {
        SettledRun(os, n, t, initial);
      } else {
        var c := CountersAfter(os, n - 1, t, Readiness);
        assert ReportAt(os, n - 1, t, Readiness) == Nothing;
      }
    }
  }

  // ---------------------------------------------------------------- kills

  predicate KillAt(os: seq<bool>, i: nat, t: Thresholds, kind: Kind) {
    i < |os| && ReportAt(os, i, t, kind) == Unhealthy
  }

  /** The failure counter of a killing probe: failures in a row, none of them spent on a kill. */
  lemma {:induction false} FailuresUnspent(os: seq<bool>, n: nat, t: Thresholds, kind: Kind)
    requires n <= |os| && kind != Readiness
    ensures var f := CountersAfter(os, n, t, kind).failures;
            && f <= n && f < FailureAt(t) && Streak(os, n, f, false)
            && (forall j :: n - f <= j < n ==> !KillAt(os, j, t, kind))
            && (f < n ==> os[n - f - 1] || KillAt(os, n - f - 1, t, kind))
  {
    if n > 0 {
      FailuresUnspent(os, n - 1, t, kind);
    }
  }

  /** Every kill comes on its own run of failureThreshold failures, with no other kill among them. */
  lemma KillJustified(os: seq<bool>, i: nat, t: Thresholds, kind: Kind)
    requires kind != Readiness && KillAt(os, i, t, kind)
    ensures Streak(os, i + 1, FailureAt(t), false)
    ensures FailureAt(t) <= i + 1 && forall j: nat :: i + 1 - FailureAt(t) <= j < i ==> !KillAt(os, j, t, kind)
  {
    FailuresUnspent(os, i, t, kind);
  }

  /** So the failures of two kills are disjoint. */
  lemma KillsDisjoint(os: seq<bool>, i: nat, j: nat, t: Thresholds, kind: Kind)
    requires kind != Readiness && i < j && KillAt(os, i, t, kind) && KillAt(os, j, t, kind)
    ensures i + FailureAt(t) <= j
  {
    KillJustified(os, j, t, kind);
  }

  /** And that many failures in a row never pass without a kill among them. */
  lemma KillComes(os: seq<bool>, n: nat, t: Thresholds, kind: Kind) returns (i: nat)
    requires kind != Readiness && n <= |os| && Streak(os, n, FailureAt(t), false)
    ensures n - FailureAt(t) <= i < n && KillAt(os, i, t, kind)
  {
    var f := CountersAfter(os, n, t, kind).failures;
    FailuresUnspent(os, n, t, kind);
    i := n - f - 1;
  }

  // ---------------------------------------------------------------- the loop

  /** No other container's readiness changed. */
  ghost predicate SameBut(name: string, was: map<string, bool>, now: map<string, bool>) {
    forall other :: other != name ==> (other in now <==> other in was) && (other in now ==> now[other] == was[other])
  }

  class PodVM {
    var ready: map<string, bool>
    var pushes: nat
    var kills: nat

    constructor ()
      ensures ready == map[] && pushes == 0 && kills == 0
    {
      ready, pushes, kills := map[], 0, 0;
    }

    predicate ContainerReady(name: string)
      reads this
    {
      name in ready && ready[name]
    }

    /** setContainerReady: true when the value changed. */
    method SetContainerReady(name: string, r: bool) returns (changed: bool)
      modifies this
      ensures ready == old(ready)[name := r] && changed == (old(ContainerReady(name)) != r)
      ensures kills == old(kills) && pushes == old(pushes)
    {
      changed := ContainerReady(name) != r;
      ready := ready[name := r];
    }

    /** The readiness probe's loop and callback, over the outcomes until the pod stops: one push per change. */
    method ProbeReadiness(name: string, os: seq<bool>, t: Thresholds)
      modifies this
      ensures ContainerReady(name) == Verdict(os, |os|, t, old(ContainerReady(name)))
      ensures SameBut(name, old(ready), ready)
      ensures pushes == old(pushes) + Changes(os, |os|, t, old(ContainerReady(name)))
    {
      ghost var initial := ContainerReady(name);
      var successes, failures := 0, 0;
      for i := 0 to |os|
        invariant CountersAfter(os, i, t, Readiness) == Counters(successes, failures)
        invariant ContainerReady(name) == ReadyAfter(os, i, t, initial)
        invariant SameBut(name, old(ready), ready)
        invariant pushes == old(pushes) + Changes(os, i, t, initial)
      {
        var report := Nothing;
        if os[i] {
          failures := 0;
          successes := successes + 1;
          if successes == SuccessAt(t) {
            report := Healthy;
          }
        } else {
          successes := 0;
          failures := failures + 1;
          if failures == FailureAt(t) {
            report := Unhealthy;
          }
        }
        ReadyIsVerdict(os, i, t, initial);
        ReadyIsVerdict(os, i + 1, t, initial);
        if report != Nothing {
          var changed := SetContainerReady(name, report == Healthy);
          if changed {
            pushes := pushes + 1;
          }
        }
      }
      ReadyIsVerdict(os, |os|, t, initial);
    }

    /** The liveness probe's loop: a kill for every report of ill health. */
    method ProbeLiveness(os: seq<bool>, t: Thresholds) returns (ghost at: seq<nat>)
      modifies this
      ensures ready == old(ready) && kills == old(kills) + |at|
      ensures forall i: nat :: KillAt(os, i, t, Liveness) <==> i in at
      ensures forall j, k :: 0 <= j < k < |at| ==> at[j] < at[k]
    {
      var successes, failures := 0, 0;
      at := [];
      for i := 0 to |os|
        invariant CountersAfter(os, i, t, Liveness) == Counters(successes, failures)
        invariant ready == old(ready) && kills == old(kills) + |at|
        invariant forall j: nat :: j in at <==> j < i && KillAt(os, j, t, Liveness)
        invariant forall j, k :: 0 <= j < k < |at| ==> at[j] < at[k]
      {
        if os[i] {
          failures := 0;
          successes := successes + 1;
        } else {
          successes := 0;
          failures := failures + 1;
          if failures == FailureAt(t) {
            kills := kills + 1;
            forall j | 0 <= j < |at| ensures at[j] < i {
              assert at[j] in at;
            }
            at := at + [i];
            successes, failures := 0, 0;
          }
        }
      }
    }
  }

  /** How often readiness changes over the first n outcomes. */
  function Changes(os: seq<bool>, n: nat, t: Thresholds, initial: bool): nat
    requires n <= |os|
  {
    if n == 0 then 0
    else
      var changed := Verdict(os, n, t, initial) != Verdict(os, n - 1, t, initial);
      Changes(os, n - 1, t, initial) + (if changed then 1 else 0)
  }

  /**
   A startup probe goes on after it has succeeded: its success at s keeps nothing from killing,
   and it kills after s exactly if the threshold's failures in a row come after s.
   */
  lemma StartupKeepsKilling(os: seq<bool>, s: nat, t: Thresholds, kind: Kind)
    requires s < |os| && os[s] && kind != Readiness
    ensures (exists i: nat :: s < i && KillAt(os, i, t, kind)) <==>
              exists n: nat :: s + FailureAt(t) < n <= |os| && Streak(os, n, FailureAt(t), false)
  {
    if i: nat :| s < i && KillAt(os, i, t, kind) {
      KillJustified(os, i, t, kind);
      assert Streak(os, i + 1, FailureAt(t), false);
      assert s < i + 1 - FailureAt(t);
    }
    if n: nat :| s + FailureAt(t) < n <= |os| && Streak(os, n, FailureAt(t), false) {
      var i := KillComes(os, n, t, kind);
    }
  }
}
