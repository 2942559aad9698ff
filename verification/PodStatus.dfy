/** The host's reading of the guest's statuses, and its agreement with the guest. */
module PodStatus {
  import opened Wrappers
  import opened Container
  import opened Supervisor

  /** What the guest reports of one container. */
  datatype Report = Report(name: string, state: RunState, exitCode: int, restarts: nat, reason: string, init: bool)

  datatype ApiState =
    | ApiWaiting(reason: string, message: string)
    | ApiRunning
    | ApiTerminated(exitCode: int, reason: string, message: string)

  datatype ApiStatus = ApiStatus(name: string, state: ApiState, restartCount: nat, ready: bool)

  datatype Phase = PodPending | PodRunning | PodSucceeded | PodFailed

  // ---------------------------------------------------------------- the guest's report

  function ReportOf(name: string, c: Record, init: bool): Report {
    Report(name, c.state, c.exitCode, c.restarts, c.reason, init)
  }

  /** statuses: inits first, then mains. */
  function Statuses(y: Pod, names: seq<string>): (rs: seq<Report>)
    requires |names| == |y.cs|
    ensures |rs| == |y.cs| && forall i :: 0 <= i < |rs| ==> rs[i] == ReportOf(names[i], y.cs[i], i < y.inits)
  {
    seq(|y.cs|, i requires 0 <= i < |y.cs| => ReportOf(names[i], y.cs[i], i < y.inits))
  }

  // ---------------------------------------------------------------- the host's view

  function HasPrefix(s: string, p: string): bool {
    p <= s
  }

  function StateOf(r: Report): ApiState {
    match r.state
    case Running => ApiRunning
    case Terminated => ApiTerminated(r.exitCode, if r.exitCode != 0 then "Error" else "Completed", r.reason)
    case Waiting => ApiWaiting(if HasPrefix(r.reason, CRASH_LOOP) then CRASH_LOOP else "ContainerCreating", r.reason)
  }

  function Convert(name: string, found: Option<Report>, init: bool, vmReady: string -> bool): ApiStatus {
    match found
    case None => ApiStatus(name, ApiWaiting("ContainerCreating", ""), 0, false)
    case Some(r) =>
      ApiStatus(name, StateOf(r), r.restarts,
                match r.state
                case Running => !init && vmReady(name)
                case Terminated => init && r.exitCode == 0
                case Waiting => false)
  }

  /** The last report under a name. */
  function ByName(rs: seq<Report>, name: string): Option<Report> {
    if rs == [] then None
    else if rs[|rs| - 1].name == name then Some(rs[|rs| - 1])
    else ByName(rs[..|rs| - 1], name)
  }

  function Translated(names: seq<string>, rs: seq<Report>, init: bool, vmReady: string -> bool): (ss: seq<ApiStatus>)
    ensures |ss| == |names|
    ensures forall i :: 0 <= i < |ss| ==> ss[i] == Convert(names[i], ByName(rs, names[i]), init, vmReady)
  {
    seq(|names|, i requires 0 <= i < |names| => Convert(names[i], ByName(rs, names[i]), init, vmReady))
  }

  predicate EndedWell(s: ApiStatus) {
    s.state.ApiTerminated? && s.state.exitCode == 0
  }

  /** Pending until every init container has succeeded, then Running. */
  predicate AllEndedWell(ss: seq<ApiStatus>) {
    forall i :: 0 <= i < |ss| ==> EndedWell(ss[i])
  }

  method IndexByName(rs: seq<Report>) returns (m: map<string, Report>)
    ensures forall name :: (name in m <==> ByName(rs, name).Some?) && (name in m ==> ByName(rs, name) == Some(m[name]))
  {
    m := map[];
    for i := 0 to |rs|
      invariant forall name ::
        (name in m <==> ByName(rs[..i], name).Some?) && (name in m ==> ByName(rs[..i], name) == Some(m[name]))
    {
      assert rs[..i + 1][..i] == rs[..i];
      m := m[rs[i].name := rs[i]];
    }
    assert rs[..|rs|] == rs;
  }

  method ConvertAll(names: seq<string>, m: map<string, Report>, rs: seq<Report>, init: bool, vmReady: string -> bool)
    returns (ss: seq<ApiStatus>)
    requires forall name :: (name in m <==> ByName(rs, name).Some?) && (name in m ==> ByName(rs, name) == Some(m[name]))
    ensures ss == Translated(names, rs, init, vmReady)
  {
    ss := [];
    for i := 0 to |names|
      invariant |ss| == i && forall j :: 0 <= j < i ==> ss[j] == Convert(names[j], ByName(rs, names[j]), init, vmReady)
    {
      var found := if names[i] in m then Some(m[names[i]]) else None;
      ss := ss + [Convert(names[i], found, init, vmReady)];
    }
  }

  /** translateStatuses: in pod spec order, with the live phase. */
  method TranslateStatuses(initNames: seq<string>, mainNames: seq<string>, rs: seq<Report>, vmReady: string -> bool)
    returns (ics: seq<ApiStatus>, css: seq<ApiStatus>, phase: Phase)
    ensures ics == Translated(initNames, rs, true, vmReady) && css == Translated(mainNames, rs, false, vmReady)
    ensures phase == if AllEndedWell(ics) then PodRunning else PodPending
  {
    var m := IndexByName(rs);
    ics := ConvertAll(initNames, m, rs, true, vmReady);
    css := ConvertAll(mainNames, m, rs, false, vmReady);
    phase := PodRunning;
    for i := 0 to |ics|
      invariant phase == if AllEndedWell(ics[..i]) then PodRunning else PodPending
    {
      if !ics[i].state.ApiTerminated? || ics[i].state.exitCode != 0 {
        phase := PodPending;
      }
      assert ics[..i + 1] == ics[..i] + [ics[i]];
    }
    assert ics[..|ics|] == ics;
  }

  /** finalPhase: Succeeded only if every container ended with 0. */
  method FinalPhase(ics: seq<ApiStatus>, css: seq<ApiStatus>) returns (phase: Phase)
    ensures phase == if AllEndedWell(ics) && AllEndedWell(css) then PodSucceeded else PodFailed
  {
    var all := ics + css;
    for i := 0 to |all|
      invariant AllEndedWell(all[..i])
    {
      if !all[i].state.ApiTerminated? || all[i].state.exitCode != 0 {
        assert i < |ics| ==> !EndedWell(ics[i]);
        assert i >= |ics| ==> !EndedWell(css[i - |ics|]);
        return PodFailed;
      }
      assert all[..i + 1] == all[..i] + [all[i]];
    }
    assert all[..|all|] == all;
    assert forall i :: 0 <= i < |ics| ==> ics[i] == all[i];
    assert forall i :: 0 <= i < |css| ==> css[i] == all[|ics| + i];
    phase := PodSucceeded;
  }

  // ---------------------------------------------------------------- agreement

  ghost predicate Distinct(names: seq<string>) {
    forall i, j :: 0 <= i < j < |names| ==> names[i] != names[j]
  }

  lemma {:induction false} ByNameFinds(rs: seq<Report>, i: nat)
    requires i < |rs| && forall j :: i < j < |rs| ==> rs[j].name != rs[i].name
    ensures ByName(rs, rs[i].name) == Some(rs[i])
  {
    if i < |rs| - 1 {
      assert rs[|rs| - 1].name != rs[i].name;
      ByNameFinds(rs[..|rs| - 1], i);
    }
  }

  ghost function PhaseOf(y: Pod, names: seq<string>, vmReady: string -> bool): Phase
    requires |names| == |y.cs| && y.inits <= |names|
  {
    var rs := Statuses(y, names);
    if AllEndedWell(Translated(names[..y.inits], rs, true, vmReady))
       && AllEndedWell(Translated(names[y.inits..], rs, false, vmReady))
    then PodSucceeded else PodFailed
  }

  /** With distinct names the host reads container i's own record. */
  lemma ReadsOwn(y: Pod, names: seq<string>, i: nat)
    requires |names| == |y.cs| && Distinct(names) && i < |names|
    ensures ByName(Statuses(y, names), names[i]) == Some(ReportOf(names[i], y.cs[i], i < y.inits))
  {
    ByNameFinds(Statuses(y, names), i);
  }

  predicate EndedZero(c: Record) {
    c.state == Terminated && c.exitCode == 0
  }

  /** The host's reading of a stretch of containers whose own reports it finds. */
  lemma PartReads(names: seq<string>, cs: seq<Record>, rs: seq<Report>, init: bool, vmReady: string -> bool)
    requires |names| == |cs|
    requires forall i :: 0 <= i < |names| ==> ByName(rs, names[i]) == Some(ReportOf(names[i], cs[i], init))
    ensures AllEndedWell(Translated(names, rs, init, vmReady)) <==> forall i :: 0 <= i < |cs| ==> EndedZero(cs[i])
  {
    var ss := Translated(names, rs, init, vmReady);
    forall i | 0 <= i < |ss| ensures EndedWell(ss[i]) <==> EndedZero(cs[i]) {
      assert ss[i] == Convert(names[i], ByName(rs, names[i]), init, vmReady);
    }
  }

  lemma HostReads(y: Pod, names: seq<string>, vmReady: string -> bool)
    requires |names| == |y.cs| && Distinct(names) && y.inits <= |names|
    ensures AllEndedWell(Translated(names[..y.inits], Statuses(y, names), true, vmReady)) <==>
              forall i :: 0 <= i < |y.cs[..y.inits]| ==> EndedZero(y.cs[..y.inits][i])
    ensures AllEndedWell(Translated(names[y.inits..], Statuses(y, names), false, vmReady)) <==>
              forall i :: 0 <= i < |y.cs[y.inits..]| ==> EndedZero(y.cs[y.inits..][i])
  {
    var rs := Statuses(y, names);
    forall i | 0 <= i < |names| ensures ByName(rs, names[i]) == Some(ReportOf(names[i], y.cs[i], i < y.inits)) {
      ReadsOwn(y, names, i);
    }
    PartReads(names[..y.inits], y.cs[..y.inits], rs, true, vmReady);
    PartReads(names[y.inits..], y.cs[y.inits..], rs, false, vmReady);
  }

  lemma SplitEnded(cs: seq<Record>, k: nat)
    requires k <= |cs|
    ensures (forall i :: 0 <= i < |cs| ==> EndedZero(cs[i])) <==>
              && (forall i :: 0 <= i < |cs[..k]| ==> EndedZero(cs[..k][i]))
              && (forall i :: 0 <= i < |cs[k..]| ==> EndedZero(cs[k..][i]))
  {
    forall i | 0 <= i < |cs| ensures if i < k then cs[i] == cs[..k][i] else cs[i] == cs[k..][i - k] {
    }
  }

  /** In every run with distinct names, the supervisor returns 0 exactly when the host reads Succeeded. */
  lemma GuestAndHostAgree(policy: string, inits: nat, mains: nat, steps: seq<Step>, names: seq<string>,
                          vmReady: string -> bool)
    requires After(Boot(policy, inits, mains), steps).control.Returned?
    requires |names| == inits + mains && Distinct(names)
    ensures var y := After(Boot(policy, inits, mains), steps);
            && |names| == |y.cs| && y.inits <= |names|
            && (y.control.code == 0 <==> PhaseOf(y, names, vmReady) == PodSucceeded)
  {
    SameShape(Boot(policy, inits, mains), steps);
    RunOutcome(policy, inits, mains, steps);
    var y := After(Boot(policy, inits, mains), steps);
    assert forall c: Record :: EndedZero(c) <==> c.state == Terminated && c.exitCode == 0;
    SplitEnded(y.cs, inits);
    HostReads(y, names, vmReady);
  }

  /** What the API shows of a container with this record. */
  ghost predicate Shown(c: Record, init: bool, ready: bool, s: ApiStatus) {
    && s.restartCount == c.restarts
    && (s.state.ApiRunning? <==> c.place == Up || (c.place in {Exited, Ending, Retrying} && c.state == Running))
    && (s.state.ApiTerminated? <==> c.place == Done)
    && (c.place == Done ==>
          s.state == ApiTerminated(c.exitCode, if c.exitCode == 0 then "Completed" else "Error", c.reason))
    && (c.place == Backoff ==> s.state == ApiWaiting("CrashLoopBackOff", c.reason))
    && (c.place == Idle ==> s.state == ApiWaiting("ContainerCreating", ""))
    && (s.ready <==> if init then c.place == Done && c.exitCode == 0 else s.state.ApiRunning? && ready)
  }

  lemma ShownRecord(c: Record, policy: string, name: string, init: bool, vmReady: string -> bool)
    requires Tallied(c, policy)
    requires (c.place == Backoff ==> "CrashLoopBackOff" <= c.reason) && (c.place == Idle ==> c.reason == "")
    ensures var s := Convert(name, Some(ReportOf(name, c, init)), init, vmReady);
            s.name == name && Shown(c, init, vmReady(name), s)
  {
  }

  /** A container nobody has reported yet is about to be created. */
  lemma Unreported(rs: seq<Report>, name: string, init: bool, vmReady: string -> bool)
    requires forall i :: 0 <= i < |rs| ==> rs[i].name != name
    ensures Convert(name, ByName(rs, name), init, vmReady) ==
              ApiStatus(name, ApiWaiting("ContainerCreating", ""), 0, false)
  {
    NotByName(rs, name);
  }

  lemma {:induction false} NotByName(rs: seq<Report>, name: string)
    requires forall i :: 0 <= i < |rs| ==> rs[i].name != name
    ensures ByName(rs, name) == None
  {
    if rs != [] {
      NotByName(rs[..|rs| - 1], name);
    }
  }

  lemma BackoffReason(c: Record, long: bool)
    ensures "CrashLoopBackOff" <= Retry(c, long).reason
  {
    var pause := Retry(c, long).pause;
    assert PauseReason(pause)[..16] == "CrashLoopBackOff";
  }

  /** While a container backs off its reason says so. */
  ghost predicate SaysSo(y: Pod) {
    forall i :: 0 <= i < |y.cs| ==>
      && (y.cs[i].place == Backoff ==> "CrashLoopBackOff" <= y.cs[i].reason)
      && (y.cs[i].place == Idle ==> y.cs[i].reason == "")
  }

  lemma SaysSoAct(c: Record, policy: string, stopping: bool, a: Act)
    requires Container.Ready(c, a)
    requires (c.place == Backoff ==> "CrashLoopBackOff" <= c.reason) && (c.place == Idle ==> c.reason == "")
    ensures var d := Apply(c, policy, stopping, a);
            (d.place == Backoff ==> "CrashLoopBackOff" <= d.reason) && (d.place == Idle ==> d.reason == "")
  {
    if a.ToSettle? && c.place != Ending {
      BackoffReason(c, a.long);
    }
  }

  lemma SaysSoStep(y: Pod, s: Step)
    requires SaysSo(y) && PodOk(y)
    ensures SaysSo(Next(y, s))
  {
    if s.At? && Enabled(y, s) {
      SaysSoAct(y.cs[s.i], PolicyOf(y, s.i), y.stopping, s.act);
    }
  }

  lemma {:induction false} AlwaysSaysSo(policy: string, inits: nat, mains: nat, steps: seq<Step>)
    ensures SaysSo(After(Boot(policy, inits, mains), steps))
  {
    if steps != [] {
      AlwaysSaysSo(policy, inits, mains, steps[..|steps| - 1]);
      Reachable(policy, inits, mains, steps[..|steps| - 1]);
      SaysSoStep(After(Boot(policy, inits, mains), steps[..|steps| - 1]), steps[|steps| - 1]);
    }
  }

  /** In every run with distinct names every container is shown as what it is. */
  lemma ShownAsIs(policy: string, inits: nat, mains: nat, steps: seq<Step>, names: seq<string>, i: nat,
                  vmReady: string -> bool)
    requires |names| == inits + mains && Distinct(names) && i < |names|
    ensures var y := After(Boot(policy, inits, mains), steps);
            && |names| == |y.cs|
            && var s := Convert(names[i], ByName(Statuses(y, names), names[i]), i < inits, vmReady);
               s.name == names[i] && Shown(y.cs[i], i < inits, vmReady(names[i]), s)
  {
    SameShape(Boot(policy, inits, mains), steps);
    Reachable(policy, inits, mains, steps);
    AlwaysSaysSo(policy, inits, mains, steps);
    var y := After(Boot(policy, inits, mains), steps);
    assert ContainerOk(y.cs[i], PolicyOf(y, i), y.stopping, y.late[i]);
    ReadsOwn(y, names, i);
    ShownRecord(y.cs[i], PolicyOf(y, i), names[i], i < inits, vmReady);
  }

  /** The live phase shown: Running or, while an init has yet to succeed, Pending. */
  ghost function LiveOf(y: Pod, names: seq<string>, vmReady: string -> bool): Phase
    requires |names| == |y.cs| && y.inits <= |names|
  {
    if AllEndedWell(Translated(names[..y.inits], Statuses(y, names), true, vmReady)) then PodRunning else PodPending
  }

  lemma InitsZero(policy: string, inits: nat, mains: nat, steps: seq<Step>)
    ensures var y := After(Boot(policy, inits, mains), steps);
            y.inits == inits <= |y.cs|
            && ((forall i :: 0 <= i < |y.cs[..inits]| ==> EndedZero(y.cs[..inits][i]))
                <==> forall j :: 0 <= j < inits ==> Succeeded(y.cs[j]))
  {
    Reachable(policy, inits, mains, steps);
    SameShape(Boot(policy, inits, mains), steps);
    var y := After(Boot(policy, inits, mains), steps);
    TerminatedIsDone(y);
    forall j | 0 <= j < inits ensures y.cs[..inits][j] == y.cs[j] && (EndedZero(y.cs[j]) <==> Succeeded(y.cs[j])) {
    }
  }

  /**
   At every moment of every run with distinct names the phase shown is Running exactly when all inits
   have exited 0, and Pending before; so it is Running once any main container has started.
   */
  lemma LivePhase(policy: string, inits: nat, mains: nat, steps: seq<Step>, names: seq<string>, vmReady: string -> bool)
    requires |names| == inits + mains && Distinct(names)
    ensures var y := After(Boot(policy, inits, mains), steps);
            && |names| == |y.cs| && y.inits == inits
            && LiveOf(y, names, vmReady)
               == (if forall j :: 0 <= j < inits ==> Succeeded(y.cs[j]) then PodRunning else PodPending)
            && ((exists i :: inits <= i < |y.cs| && y.cs[i].place != Idle) ==> LiveOf(y, names, vmReady) == PodRunning)
  {
    SameShape(Boot(policy, inits, mains), steps);
    InitsZero(policy, inits, mains, steps);
    var y := After(Boot(policy, inits, mains), steps);
    HostReads(y, names, vmReady);
    if i :| inits <= i < |y.cs| && y.cs[i].place != Idle {
      forall j | 0 <= j < inits ensures Succeeded(y.cs[j]) {
        StartOrder(policy, inits, mains, steps, i, j);
      }
    }
  }
}
