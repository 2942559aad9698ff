/**
 The pod's supervisor: one goroutine per container, inits in sequence and then mains side
 by side, and a shutdown that can come at any moment. A run is any interleaving of the
 sections of Container with the control steps here.
 */
module Supervisor {
  import opened Container

  datatype Control = Inits(k: nat) | Mains | Returned(code: int)

  /** The first inits records of cs are the init containers. late counts starts since shutdown was requested. */
  datatype Pod = Pod(policy: string, inits: nat, cs: seq<Record>, control: Control, stopping: bool, late: seq<nat>)

  datatype Step = At(i: nat, act: Act) | Advance | Shutdown

  function PolicyOf(y: Pod, i: nat): string {
    if i < y.inits then InitPolicy(y.policy) else y.policy
  }

  function Boot(policy: string, inits: nat, mains: nat): Pod {
    Pod(policy, inits, seq(inits + mains, i => Fresh()), Inits(0), false, seq(inits + mains, i => 0))
  }

  /** The last nonzero exit code. */
  function LastFailure(cs: seq<Record>): int {
    if cs == [] then 0
    else if cs[|cs| - 1].exitCode != 0 then cs[|cs| - 1].exitCode
    else LastFailure(cs[..|cs| - 1])
  }

  predicate MayBegin(y: Pod, i: nat)
    requires i < |y.cs|
  {
    y.cs[i].place == Looping || y.control == (if i < y.inits then Inits(i) else Mains)
  }

  predicate Enabled(y: Pod, s: Step) {
    match s
    case At(i, act) => i < |y.cs| && i < |y.late| && Ready(y.cs[i], act) && (act == ToBegin ==> MayBegin(y, i))
    case Advance =>
      (match y.control
       case Inits(k) => k == y.inits || (k < |y.cs| && y.cs[k].place == Done)
       case Mains => y.inits <= |y.cs| && forall i :: y.inits <= i < |y.cs| ==> y.cs[i].place == Done
       case Returned(_) => false)
    case Shutdown => true
  }

  function Next(y: Pod, s: Step): Pod {
    if !Enabled(y, s) then
      y
    else
      match s
      case At(i, act) =>
        y.(cs := y.cs[i := Apply(y.cs[i], PolicyOf(y, i), y.stopping, act)],
           late := if y.stopping && act == ToBegin then y.late[i := y.late[i] + 1] else y.late)
      case Shutdown => y.(stopping := true)
      case Advance =>
        match y.control
        case Inits(k) =>
          if k == y.inits then y.(control := Mains)
          else if y.cs[k].exitCode != 0 then y.(control := Returned(y.cs[k].exitCode))
          else y.(control := Inits(k + 1))
        case Mains => y.(control := Returned(LastFailure(y.cs[y.inits..])))
        case Returned(_) => y
  }

  function After(y: Pod, steps: seq<Step>): Pod {
    if steps == [] then y else Next(After(y, steps[..|steps| - 1]), steps[|steps| - 1])
  }

  // ---------------------------------------------------------------- invariants

  ghost predicate ContainerOk(c: Record, policy: string, stopping: bool, late: nat) {
    && Tallied(c, policy) && late <= 1
    && (!stopping ==> late == 0)
    && (!stopping && (c.place == Ending || c.place == Done) ==> !c.cut && !ShouldRestart(policy, c.exitCode))
    && (late == 1 ==> c.place !in {Idle, Looping, Retrying, Backoff})
  }

  lemma ApplyKeeps(c: Record, policy: string, stopping: bool, late: nat, a: Act)
    requires ContainerOk(c, policy, stopping, late) && Ready(c, a)
    ensures var later := if stopping && a == ToBegin then late + 1 else late;
            ContainerOk(Apply(c, policy, stopping, a), policy, stopping, later)
  {
    ApplyTallied(c, policy, stopping, a);
  }

  lemma StopKeeps(c: Record, policy: string, stopping: bool, late: nat)
    requires ContainerOk(c, policy, stopping, late)
    ensures ContainerOk(c, policy, true, late)
  {
  }

  predicate Succeeded(c: Record) {
    c.place == Done && c.exitCode == 0
  }

  ghost predicate ControlOk(inits: nat, cs: seq<Record>, control: Control) {
    inits <= |cs| &&
    match control
    case Inits(k) =>
      && k <= inits && (forall j :: 0 <= j < k ==> Succeeded(cs[j]))
      && (forall j :: k < j < |cs| ==> cs[j].place == Idle)
      && (k == inits < |cs| ==> cs[k].place == Idle)
    case Mains => forall j :: 0 <= j < inits ==> Succeeded(cs[j])
    case Returned(code) =>
      || (&& code != 0 && exists k :: FailedInit(inits, cs, k, code))
      || (&& (forall j :: 0 <= j < |cs| ==> cs[j].place == Done)
          && (forall j :: 0 <= j < inits ==> Succeeded(cs[j])) && code == LastFailure(cs[inits..]))
  }

  ghost predicate FailedInit(inits: nat, cs: seq<Record>, k: nat, code: int) {
    && k < inits <= |cs| && cs[k].place == Done && cs[k].exitCode == code
    && (forall j :: 0 <= j < k ==> Succeeded(cs[j])) && (forall j :: k < j < |cs| ==> cs[j].place == Idle)
  }

  ghost predicate PodOk(y: Pod) {
    && |y.late| == |y.cs| && ControlOk(y.inits, y.cs, y.control)
    && forall i :: 0 <= i < |y.cs| ==> ContainerOk(y.cs[i], PolicyOf(y, i), y.stopping, y.late[i])
  }

  lemma Stuck(y: Pod, i: nat, act: Act)
    requires PodOk(y) && y.control.Returned?
    ensures !Enabled(y, At(i, act))
  {
    if i < |y.cs| && exists k :: FailedInit(y.inits, y.cs, k, y.control.code) {
      var k :| FailedInit(y.inits, y.cs, k, y.control.code);
      assert y.cs[i].place == Idle || y.cs[i].place == Done;
    }
  }

  /** A container in motion does not upset the order of things. */
  lemma ControlKept(y: Pod, i: nat, act: Act)
    requires PodOk(y) && Enabled(y, At(i, act))
    ensures ControlOk(y.inits, Next(y, At(i, act)).cs, y.control)
  {
    assert ContainerOk(y.cs[i], PolicyOf(y, i), y.stopping, y.late[i]);
    if y.control.Returned? {
      Stuck(y, i, act);
    }
  }

  lemma AdvanceKeeps(y: Pod)
    requires PodOk(y) && Enabled(y, Advance)
    ensures ControlOk(y.inits, y.cs, Next(y, Advance).control)
  {
    match y.control
    case Inits(k) =>
      if k < y.inits && y.cs[k].exitCode != 0 {
        assert FailedInit(y.inits, y.cs, k, y.cs[k].exitCode);
      }
    case Mains =>
    case Returned(_) =>
  }

  lemma ContainersKept(y: Pod, i: nat, act: Act)
    requires PodOk(y) && Enabled(y, At(i, act))
    ensures var z := Next(y, At(i, act));
            && |z.late| == |z.cs|
            && forall j :: 0 <= j < |z.cs| ==> ContainerOk(z.cs[j], PolicyOf(z, j), z.stopping, z.late[j])
  {
    ApplyKeeps(y.cs[i], PolicyOf(y, i), y.stopping, y.late[i], act);
  }

  lemma ShutdownKeeps(y: Pod)
    requires PodOk(y)
    ensures PodOk(Next(y, Shutdown))
  {
    forall i | 0 <= i < |y.cs| ensures ContainerOk(y.cs[i], PolicyOf(y, i), true, y.late[i]) {
      StopKeeps(y.cs[i], PolicyOf(y, i), y.stopping, y.late[i]);
    }
  }

  lemma NextKeeps(y: Pod, s: Step)
    requires PodOk(y)
    ensures PodOk(Next(y, s))
  {
    if Enabled(y, s) {
      match s
      case At(i, act) =>
        ControlKept(y, i, act);
        ContainersKept(y, i, act);
      case Advance => AdvanceKeeps(y);
      case Shutdown => ShutdownKeeps(y);
    }
  }

  lemma {:induction false} AlwaysOk(y: Pod, steps: seq<Step>)
    requires PodOk(y)
    ensures PodOk(After(y, steps))
  {
    if steps != [] {
      AlwaysOk(y, steps[..|steps| - 1]);
      NextKeeps(After(y, steps[..|steps| - 1]), steps[|steps| - 1]);
    }
  }

  lemma BootOk(policy: string, inits: nat, mains: nat)
    ensures PodOk(Boot(policy, inits, mains))
  {
  }

  lemma Reachable(policy: string, inits: nat, mains: nat, steps: seq<Step>)
    ensures PodOk(After(Boot(policy, inits, mains), steps))
  {
    BootOk(policy, inits, mains);
    AlwaysOk(Boot(policy, inits, mains), steps);
  }

  // ---------------------------------------------------------------- the promises

  /** Inits start in order, each after the one before exited 0, and mains only after all of them did. */
  lemma StartOrder(policy: string, inits: nat, mains: nat, steps: seq<Step>, i: nat, j: nat)
    requires var y := After(Boot(policy, inits, mains), steps);
             i < |y.cs| && y.cs[i].place != Idle && j < i && j < inits
    ensures var y := After(Boot(policy, inits, mains), steps); j < |y.cs| && Succeeded(y.cs[j])
  {
    Reachable(policy, inits, mains, steps);
    SameShape(Boot(policy, inits, mains), steps);
    var y := After(Boot(policy, inits, mains), steps);
    if y.control.Returned? && exists k :: FailedInit(y.inits, y.cs, k, y.control.code) {
      var k :| FailedInit(y.inits, y.cs, k, y.control.code);
    }
  }

  lemma {:induction false} SameShape(y: Pod, steps: seq<Step>)
    ensures var z := After(y, steps); z.inits == y.inits && z.policy == y.policy && |z.cs| == |y.cs|
  {
    if steps != [] {
      SameShape(y, steps[..|steps| - 1]);
    }
  }

  /** Starts exceed restarts by one at every exit, unless the end came on waking from a back-off. */
  lemma StartsCounted(policy: string, inits: nat, mains: nat, steps: seq<Step>, i: nat)
    requires i < |After(Boot(policy, inits, mains), steps).cs|
    ensures var c := After(Boot(policy, inits, mains), steps).cs[i];
            && (c.place == Exited ==> c.starts == c.restarts + 1)
            && (c.place == Done ==> c.starts == (if c.cut then c.restarts else c.restarts + 1))
            && (c.cut ==> After(Boot(policy, inits, mains), steps).stopping)
            && (c.place == Done <==> c.state == Terminated)
  {
    Reachable(policy, inits, mains, steps);
    var y := After(Boot(policy, inits, mains), steps);
    assert ContainerOk(y.cs[i], PolicyOf(y, i), y.stopping, y.late[i]);
  }

  /**
   Never starts a container once; unstopped, OnFailure and inits end only on 0, and an Always container never
   ends.
   */
  lemma PolicyObeyed(policy: string, inits: nat, mains: nat, steps: seq<Step>, i: nat)
    requires KnownPolicy(policy) && i < |After(Boot(policy, inits, mains), steps).cs|
    ensures var y, c := After(Boot(policy, inits, mains), steps), After(Boot(policy, inits, mains), steps).cs[i];
            && (policy == "Never" ==> c.starts <= 1)
            && (c.place == Done && !y.stopping && policy != "Never" ==> c.exitCode == 0)
            && (c.place == Done && !y.stopping && policy == "Always" ==> i < inits)
  {
    Reachable(policy, inits, mains, steps);
    SameShape(Boot(policy, inits, mains), steps);
    var y := After(Boot(policy, inits, mains), steps);
    assert ContainerOk(y.cs[i], PolicyOf(y, i), y.stopping, y.late[i]);
  }

  // ---------------------------------------------------------------- nothing gets stuck

  /** The act container c is waiting to do. */
  function NextAct(c: Record): Act {
    match c.place
    case Idle => ToBegin
    case Looping => ToBegin
    case Starting => ToSpawn
    case Spawned => ToMarkUp
    case Up => ToExit(0)
    case Exited => ToCheck
    case Ending => ToSettle(false)
    case Retrying => ToSettle(false)
    case Backoff => ToWake
    case Done => ToBegin
  }

  /** Until run has returned, some container or run itself can go on, in every interleaving. */
  lemma NeverStuck(policy: string, inits: nat, mains: nat, steps: seq<Step>) returns (s: Step)
    requires !After(Boot(policy, inits, mains), steps).control.Returned?
    ensures s != Shutdown && Enabled(After(Boot(policy, inits, mains), steps), s)
  {
    Reachable(policy, inits, mains, steps);
    var y := After(Boot(policy, inits, mains), steps);
    s := Advance;
    if !Enabled(y, Advance) {
      var i: nat;
      match y.control {
        case Inits(k) => i := k;
        case Mains => i :| y.inits <= i < |y.cs| && y.cs[i].place != Done;
      }
      s := At(i, NextAct(y.cs[i]));
    }
  }

  lemma {:induction false} AfterJoin(y: Pod, a: seq<Step>, b: seq<Step>)
    ensures After(y, a + b) == After(After(y, a), b)
  {
    if b == [] {
      assert a + b == a;
    } else {
      assert (a + b)[..|a + b| - 1] == a + b[..|b| - 1];
      AfterJoin(y, a, b[..|b| - 1]);
    }
  }

  lemma AfterOne(y: Pod, ss: seq<Step>, s: Step)
    ensures After(y, ss + [s]) == Next(After(y, ss), s)
  {
    assert (ss + [s])[..|ss|] == ss;
  }

  /** A turn of container i as steps. */
  function StepsOf(i: nat, acts: seq<Act>): (ss: seq<Step>)
    ensures |ss| == |acts| && forall k :: 0 <= k < |ss| ==> ss[k] == At(i, acts[k])
  {
    seq(|acts|, k requires 0 <= k < |acts| => At(i, acts[k]))
  }

  ghost predicate MayRun(y: Pod, i: nat, t: Turn) {
    && |y.late| == |y.cs| && i < |y.cs| && Container.Ready(y.cs[i], ToBegin) && MayBegin(y, i) && !y.stopping
    && !t.stopNow && !t.stopLater
  }

  lemma ActRuns(y: Pod, i: nat, c: Record, act: Act)
    requires |y.late| == |y.cs| && i < |y.cs| && Container.Ready(c, act) && !y.stopping
    requires act == ToBegin ==> c.place == Looping || y.control == (if i < y.inits then Inits(i) else Mains)
    ensures Next(y.(cs := y.cs[i := c]), At(i, act))
         == y.(cs := y.cs[i := Apply(c, PolicyOf(y, i), false, act)])
  {
    assert y.cs[i := c][i := Apply(c, PolicyOf(y, i), false, act)] == y.cs[i := Apply(c, PolicyOf(y, i), false, act)];
  }

  /** Only the first act of a turn begins a start. */
  lemma BeginsOnce(policy: string, t: Turn, k: nat)
    requires 0 < k < |ActsOf(policy, t)|
    ensures ActsOf(policy, t)[k] != ToBegin
  {
  }

  /** In a pod that is not stopping, a container that may begin can take any turn, and nothing else moves. */
  lemma {:induction false} TurnRuns(y: Pod, i: nat, t: Turn, k: nat)
    requires MayRun(y, i, t) && k <= |ActsOf(PolicyOf(y, i), t)|
    ensures var acts := ActsOf(PolicyOf(y, i), t);
            After(y, StepsOf(i, acts)[..k]) == y.(cs := y.cs[i := ApplyAll(y.cs[i], PolicyOf(y, i), t, acts, k)])
  {
    var policy, acts := PolicyOf(y, i), ActsOf(PolicyOf(y, i), t);
    var ss := StepsOf(i, acts);
    if k == 0 {
      assert y.cs[i := y.cs[i]] == y.cs;
    } else {
      TurnRuns(y, i, t, k - 1);
      assert ss[..k] == ss[..k - 1] + [ss[k - 1]];
      AfterOne(y, ss[..k - 1], ss[k - 1]);
      TurnGoesOn(y, i, t, acts, k);
    }
  }

  lemma TurnGoesOn(y: Pod, i: nat, t: Turn, acts: seq<Act>, k: nat)
    requires MayRun(y, i, t) && acts == ActsOf(PolicyOf(y, i), t) && 0 < k <= |acts|
    ensures Next(y.(cs := y.cs[i := ApplyAll(y.cs[i], PolicyOf(y, i), t, acts, k - 1)]), At(i, acts[k - 1]))
         == y.(cs := y.cs[i := ApplyAll(y.cs[i], PolicyOf(y, i), t, acts, k)])
  {
    var policy := PolicyOf(y, i);
    TurnIsActs(y.cs[i], policy, t);
    if k > 1 {
      BeginsOnce(policy, t, k - 1);
    }
    NoStops(y.cs[i], policy, t, acts, k);
    ActRuns(y, i, ApplyAll(y.cs[i], policy, t, acts, k - 1), acts[k - 1]);
  }

  lemma NoStops(c: Record, policy: string, t: Turn, acts: seq<Act>, k: nat)
    requires 0 < k <= |acts| && !t.stopNow && !t.stopLater
    ensures ApplyAll(c, policy, t, acts, k) == Apply(ApplyAll(c, policy, t, acts, k - 1), policy, false, acts[k - 1])
    ensures ApplyAll(c, policy, t, acts, 0) == c
  {
  }

  /** Container i started and run to exit 0. */
  function ToZero(): Turn {
    Turn(false, "", 0, false, false, false)
  }

  /** If the policy lets it end, that is what happens, and nothing else. */
  lemma ZeroEnds(y: Pod, i: nat) returns (steps: seq<Step>)
    requires MayRun(y, i, ToZero()) && !ShouldRestart(PolicyOf(y, i), 0)
    ensures var z := After(y, steps);
            && z == y.(cs := z.cs) && |z.cs| == |y.cs| && Succeeded(z.cs[i])
            && forall j :: 0 <= j < |y.cs| && j != i ==> z.cs[j] == y.cs[j]
  {
    var acts := ActsOf(PolicyOf(y, i), ToZero());
    steps := StepsOf(i, acts);
    TurnRuns(y, i, ToZero(), |acts|);
    assert steps[..|acts|] == steps;
    TurnIsActs(y.cs[i], PolicyOf(y, i), ToZero());
  }

  /** The first k containers are through with 0, and the others have not begun. */
  ghost predicate HalfWay(y: Pod, policy: string, inits: nat, mains: nat, k: nat) {
    && k <= |y.cs| == inits + mains && |y.late| == |y.cs| && y.inits == inits && y.policy == policy && !y.stopping
    && y.control == (if k < inits then Inits(k) else Mains)
    && (forall j :: 0 <= j < k ==> Succeeded(y.cs[j])) && (forall j :: k <= j < |y.cs| ==> y.cs[j].place == Idle)
  }

  /** The k-th container runs to its end, and run goes on to the next. */
  lemma OneMore(y: Pod, policy: string, inits: nat, mains: nat, k: nat) returns (steps: seq<Step>)
    requires HalfWay(y, policy, inits, mains, k) && k < |y.cs| && policy in {"OnFailure", "Never"}
    ensures HalfWay(After(y, steps), policy, inits, mains, k + 1)
  {
    var first := ZeroEnds(y, k);
    var rest := GoOn(After(y, first), k);
    steps := first + rest;
    AfterJoin(y, first, rest);
  }

  /** After init k ended with 0 run goes on to the next one, or to the mains. */
  lemma GoOn(z: Pod, k: nat) returns (rest: seq<Step>)
    requires z.control == (if k < z.inits then Inits(k) else Mains)
    requires k < z.inits ==> k < |z.cs| && Succeeded(z.cs[k])
    ensures After(z, rest) == z.(control := if k + 1 < z.inits then Inits(k + 1) else Mains)
  {
    rest := [];
    if k < z.inits {
      rest := [Advance];
      AfterOne(z, [], Advance);
      assert [] + [Advance] == [Advance];
      if k + 1 == z.inits {
        rest := [Advance, Advance];
        AfterOne(z, [Advance], Advance);
        assert [Advance] + [Advance] == [Advance, Advance];
      }
    }
  }

  lemma {:induction false} RunsOn(y: Pod, policy: string, inits: nat, mains: nat, k: nat) returns (steps: seq<Step>)
    requires HalfWay(y, policy, inits, mains, k) && policy in {"OnFailure", "Never"}
    ensures HalfWay(After(y, steps), policy, inits, mains, inits + mains)
    decreases inits + mains - k
  {
    if k == inits + mains {
      steps := [];
    } else {
      var first := OneMore(y, policy, inits, mains, k);
      var rest := RunsOn(After(y, first), policy, inits, mains, k + 1);
      steps := first + rest;
      AfterJoin(y, first, rest);
    }
  }

  /** If every process exits 0, a pod that need not go on for ever can return 0. */
  lemma Completes(policy: string, inits: nat, mains: nat) returns (steps: seq<Step>)
    requires policy in {"OnFailure", "Never"}
    ensures After(Boot(policy, inits, mains), steps).control == Returned(0)
  {
    var y := Boot(policy, inits, mains);
    var start := if inits == 0 then [Advance] else [];
    assert [Advance][..0] == [];
    var rest := RunsOn(After(y, start), policy, inits, mains, 0);
    var z := After(After(y, start), rest);
    AfterJoin(y, start, rest);
    steps := start + rest + [Advance];
    AfterJoin(y, start + rest, [Advance]);
    TailZero(z.cs, inits);
  }

  // ---------------------------------------------------------------- what the codes mean

  /** The step ends container i's latest start: it failed, or its process exited. */
  predicate Ends(y: Pod, s: Step, i: nat) {
    s.At? && s.i == i && Enabled(y, s) && (s.act.ToFail? || s.act.ToExit?)
  }

  /** How container i's latest finished start came out: 128 if it failed, else its process's code, 0 before any. */
  function Outcome(y: Pod, steps: seq<Step>, i: nat): int {
    if steps == [] then 0
    else
      var before, s := steps[..|steps| - 1], steps[|steps| - 1];
      if Ends(After(y, before), s, i) then (if s.act.ToFail? then 128 else s.act.code) else Outcome(y, before, i)
  }

  lemma CodeStep(y: Pod, s: Step, i: nat)
    requires i < |y.cs|
    ensures i < |Next(y, s).cs|
    ensures Next(y, s).cs[i].exitCode ==
              if Ends(y, s, i) then (if s.act.ToFail? then 128 else s.act.code) else y.cs[i].exitCode
  {
  }

  lemma {:induction false} CodesAre(y: Pod, steps: seq<Step>, i: nat)
    requires i < |y.cs| && y.cs[i].exitCode == 0
    ensures i < |After(y, steps).cs| && After(y, steps).cs[i].exitCode == Outcome(y, steps, i)
  {
    if steps != [] {
      CodesAre(y, steps[..|steps| - 1], i);
      CodeStep(After(y, steps[..|steps| - 1]), steps[|steps| - 1], i);
    }
  }

  /** Every record's code is the outcome of its latest finished start, 128 for one that failed. */
  lemma RecordsOutcome(policy: string, inits: nat, mains: nat, steps: seq<Step>, i: nat)
    requires i < inits + mains
    ensures var y := After(Boot(policy, inits, mains), steps);
            i < |y.cs| && y.cs[i].exitCode == Outcome(Boot(policy, inits, mains), steps, i)
  {
    CodesAre(Boot(policy, inits, mains), steps, i);
  }

  /** So run returns 0 exactly when every container is through and its latest start came out with 0. */
  lemma RunMeans(policy: string, inits: nat, mains: nat, steps: seq<Step>)
    requires After(Boot(policy, inits, mains), steps).control.Returned?
    ensures var y := After(Boot(policy, inits, mains), steps);
            y.control.code == 0 <==>
              forall i :: 0 <= i < inits + mains ==>
                i < |y.cs| && y.cs[i].place == Done && Outcome(Boot(policy, inits, mains), steps, i) == 0
  {
    Reachable(policy, inits, mains, steps);
    SameShape(Boot(policy, inits, mains), steps);
    RunOutcome(policy, inits, mains, steps);
    TerminatedIsDone(After(Boot(policy, inits, mains), steps));
    forall i | 0 <= i < inits + mains
      ensures After(Boot(policy, inits, mains), steps).cs[i].exitCode == Outcome(Boot(policy, inits, mains), steps, i)
    {
      RecordsOutcome(policy, inits, mains, steps, i);
    }
  }

  /** The pod is stopping exactly from the first shutdown on. */
  lemma {:induction false} StopsOnShutdown(policy: string, inits: nat, mains: nat, steps: seq<Step>)
    ensures After(Boot(policy, inits, mains), steps).stopping <==> Shutdown in steps
  {
    if steps != [] {
      StopsOnShutdown(policy, inits, mains, steps[..|steps| - 1]);
      assert steps == steps[..|steps| - 1] + [steps[|steps| - 1]];
    }
  }

  /** An init that ended with another code than 0 ends the pod with it; after 0 the next one may start. */
  lemma InitEnds(policy: string, inits: nat, mains: nat, steps: seq<Step>, k: nat)
    requires var y := After(Boot(policy, inits, mains), steps);
             k < inits && y.control == Inits(k) && k < |y.cs| && y.cs[k].place == Done
    ensures var y := After(Boot(policy, inits, mains), steps);
            var z := Next(Next(y, Advance), Advance);
            && (y.cs[k].exitCode != 0 ==> z == y.(control := Returned(y.cs[k].exitCode)))
            && (y.cs[k].exitCode == 0 ==>
                  Next(y, Advance) == y.(control := Inits(k + 1)) && (k + 1 == inits ==> z == y.(control := Mains)))
  {
    SameShape(Boot(policy, inits, mains), steps);
  }

  lemma LateStep(y: Pod, s: Step, i: nat)
    requires |y.late| == |y.cs| && y.stopping && i < |y.cs|
    ensures var z := Next(y, s); z.stopping && |z.late| == |z.cs| == |y.cs|
    ensures Next(y, s).cs[i].starts + y.late[i] == y.cs[i].starts + Next(y, s).late[i]
  {
  }

  lemma {:induction false} LateStarts(y: Pod, steps: seq<Step>, i: nat)
    requires PodOk(y) && y.stopping && i < |y.cs|
    ensures PodOk(After(y, steps)) && After(y, steps).stopping && i < |After(y, steps).cs|
    ensures After(y, steps).cs[i].starts + y.late[i] == y.cs[i].starts + After(y, steps).late[i]
  {
    if steps != [] {
      var z := After(y, steps[..|steps| - 1]);
      LateStarts(y, steps[..|steps| - 1], i);
      NextKeeps(z, steps[|steps| - 1]);
      LateStep(z, steps[|steps| - 1], i);
    }
  }

  /** Once shutdown is requested each container starts at most once more, whatever happens. */
  lemma OneMoreStart(policy: string, inits: nat, mains: nat, before: seq<Step>, rest: seq<Step>, i: nat)
    requires Shutdown in before && i < |After(Boot(policy, inits, mains), before).cs|
    ensures var y := After(Boot(policy, inits, mains), before);
            i < |After(y, rest).cs| && After(y, rest).cs[i].starts <= y.cs[i].starts + 1
  {
    Reachable(policy, inits, mains, before);
    StopsOnShutdown(policy, inits, mains, before);
    var y := After(Boot(policy, inits, mains), before);
    LateStarts(y, rest, i);
    assert ContainerOk(After(y, rest).cs[i], PolicyOf(After(y, rest), i), true, After(y, rest).late[i]);
  }

  lemma {:induction false} LastFailureZero(cs: seq<Record>)
    ensures LastFailure(cs) == 0 <==> forall i :: 0 <= i < |cs| ==> cs[i].exitCode == 0
  {
    if cs != [] {
      LastFailureZero(cs[..|cs| - 1]);
    }
  }

  lemma TailZero(cs: seq<Record>, k: nat)
    requires k <= |cs|
    ensures LastFailure(cs[k..]) == 0 <==> forall i :: k <= i < |cs| ==> cs[i].exitCode == 0
  {
    LastFailureZero(cs[k..]);
    forall i | k <= i < |cs| ensures cs[i] == cs[k..][i - k] {
    }
  }

  lemma TerminatedIsDone(y: Pod)
    requires PodOk(y)
    ensures forall i :: 0 <= i < |y.cs| ==> (y.cs[i].place == Done <==> y.cs[i].state == Terminated)
  {
    forall i | 0 <= i < |y.cs| ensures y.cs[i].place == Done <==> y.cs[i].state == Terminated {
      assert ContainerOk(y.cs[i], PolicyOf(y, i), y.stopping, y.late[i]);
    }
  }

  /** run returns 0 exactly when every container has ended with 0. */
  lemma RunOutcome(policy: string, inits: nat, mains: nat, steps: seq<Step>)
    requires After(Boot(policy, inits, mains), steps).control.Returned?
    ensures var y := After(Boot(policy, inits, mains), steps);
            y.control.code == 0 <==>
              forall i :: 0 <= i < |y.cs| ==> y.cs[i].state == Terminated && y.cs[i].exitCode == 0
  {
    Reachable(policy, inits, mains, steps);
    var y := After(Boot(policy, inits, mains), steps);
    TerminatedIsDone(y);
    if !(exists k :: FailedInit(y.inits, y.cs, k, y.control.code)) {
      TailZero(y.cs, y.inits);
    }
  }

  /** After run has returned nothing moves any more: the final status is final. */
  lemma {:induction false} ReturnedIsFinal(y: Pod, steps: seq<Step>)
    requires PodOk(y) && y.control.Returned?
    ensures After(y, steps).cs == y.cs && After(y, steps).control == y.control && PodOk(After(y, steps))
  {
    if steps != [] {
      var z, s := After(y, steps[..|steps| - 1]), steps[|steps| - 1];
      ReturnedIsFinal(y, steps[..|steps| - 1]);
      NextKeeps(z, s);
      if s.At? {
        Stuck(z, s.i, s.act);
      }
    }
  }

  /** The last loop of run. */
  method PodCode(mains: seq<Record>) returns (code: int)
    ensures code == LastFailure(mains)
    ensures code == 0 <==> forall i :: 0 <= i < |mains| ==> mains[i].exitCode == 0
  {
    code := 0;
    for i := 0 to |mains|
      invariant code == LastFailure(mains[..i])
    {
      assert mains[..i + 1][..i] == mains[..i];
      if mains[i].exitCode != 0 {
        code := mains[i].exitCode;
      }
    }
    assert mains[..|mains|] == mains;
    LastFailureZero(mains);
  }
}
