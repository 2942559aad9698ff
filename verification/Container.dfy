/**
 One supervised container: what each locked section of its supervising goroutine does to
 its record, and the goroutine's loop.
 */
module Container {
  import opened FlowKey

  datatype RunState = Waiting | Running | Terminated

  /** Where the supervising goroutine is. */
  datatype Place =
    | Idle      // not supervised yet
    | Looping   // about to call startOnce again
    | Starting  // in startOnce, no process yet
    | Spawned   // the process exists, the record does not say so yet
    | Up        // waiting for the process
    | Exited    // the exit is recorded, the restart decision is not taken
    | Ending    // decided to stop
    | Retrying  // decided to restart
    | Backoff   // sleeping
    | Done

  datatype Record = Record(state: RunState, exitCode: int, restarts: nat, reason: string, attempt: nat, pause: nat,
                           place: Place, starts: nat, upOnce: bool, cut: bool)

  function Fresh(): Record {
    Record(Waiting, 0, 0, "", 0, 0, Idle, 0, false, false)
  }

  function ShouldRestart(policy: string, exitCode: int): bool {
    if policy == "Never" then false else if policy == "OnFailure" then exitCode != 0 else true
  }

  predicate KnownPolicy(policy: string) {
    policy == "Always" || policy == "OnFailure" || policy == "Never"
  }

  /** Init containers of an Always pod retry only on failure. */
  function InitPolicy(policy: string): (p: string)
    ensures KnownPolicy(policy) <==> !ShouldRestart(p, 0)
    ensures forall code :: code != 0 ==> (ShouldRestart(p, code) <==> ShouldRestart(policy, code))
  {
    if policy == "Always" then "OnFailure" else policy
  }

  // ---------------------------------------------------------------- the goroutine's sections

  function Begin(c: Record): Record {
    c.(place := Starting, starts := c.starts + 1)
  }

  const START_FAILED: int := 128

  function FailStart(c: Record, why: string): Record {
    c.(place := Exited, exitCode := START_FAILED, reason := why)
  }

  function Spawn(c: Record): Record {
    c.(place := Spawned)
  }

  function MarkUp(c: Record): Record {
    c.(place := Up, state := Running, upOnce := true)
  }

  function Exit(c: Record, code: int): Record {
    c.(place := Exited, exitCode := code, reason := "")
  }

  function Check(c: Record, policy: string, stopping: bool): Record {
    c.(place := if stopping || !ShouldRestart(policy, c.exitCode) then Ending else Retrying)
  }

  function End(c: Record): Record {
    c.(place := Done, state := Terminated)
  }

  function PauseFor(attempt: nat): (seconds: nat)
    ensures 1 <= seconds <= 32
  {
    match attempt
    case 0 => 1
    case 1 => 2
    case 2 => 4
    case 3 => 8
    case 4 => 16
    case _ => 32
  }

  /** Each further attempt doubles the pause, up to 32 seconds. */
  lemma PauseDoubles(attempt: nat)
    ensures PauseFor(0) == 1
    ensures PauseFor(attempt + 1) == if attempt < 5 then 2 * PauseFor(attempt) else PauseFor(attempt)
  {
  }

  const CRASH_LOOP: string := "CrashLoopBackOff"

  function PauseReason(pause: nat): string {
    CRASH_LOOP + ": restarting in " + Decimal(pause) + "s"
  }

  /** The seconds are written out. */
  lemma PauseReasons(attempt: nat)
    ensures PauseReason(PauseFor(attempt))
         == "CrashLoopBackOff" + ": restarting in "
            + ["1", "2", "4", "8", "16", "32"][if attempt < 5 then attempt else 5] + "s"
  {
    Digits();
  }

  lemma Digits()
    ensures Decimal(1) == "1" && Decimal(2) == "2" && Decimal(4) == "4" && Decimal(8) == "8"
    ensures Decimal(16) == "16" && Decimal(32) == "32"
  {
    assert Decimal(3) == "3";
  }

  /** A run of more than five minutes, or none ever, starts the back-off over. */
  function Retry(c: Record, long: bool): Record {
    var attempt := if long || !c.upOnce then 0 else c.attempt;
    var pause := PauseFor(attempt);
    c.(place := Backoff, state := Waiting, restarts := c.restarts + 1, attempt := attempt, pause := pause,
       reason := PauseReason(pause))
  }

  function Wake(c: Record, stopping: bool): Record {
    if stopping then c.(place := Ending, cut := true) else c.(place := Looping, attempt := c.attempt + 1)
  }

  // ---------------------------------------------------------------- what every section keeps

  /** Starts and restarts agree with the place; an unstopped end is one the policy wants. */
  predicate Tallied(c: Record, policy: string) {
    && (match c.place
        case Idle => c == Fresh()
        case Looping => c.starts == c.restarts && c.starts > 0
        case Backoff => c.starts == c.restarts && c.starts > 0
        case Starting => c.starts == c.restarts + 1
        case Spawned => c.starts == c.restarts + 1
        case Up => c.starts == c.restarts + 1
        case Exited => c.starts == c.restarts + 1
        case Retrying => c.starts == c.restarts + 1
        case Ending => c.starts == (if c.cut then c.restarts else c.restarts + 1) && c.starts > 0
        case Done => c.starts == (if c.cut then c.restarts else c.restarts + 1) && c.starts > 0)
    && (c.cut ==> c.place == Ending || c.place == Done)
    && (c.place == Retrying ==> ShouldRestart(policy, c.exitCode))
    && (policy == "Never" ==> c.restarts == 0 && c.starts <= 1)
    && (match c.place
        case Idle => c.state == Waiting
        case Looping => c.state == Waiting
        case Starting => c.state == Waiting
        case Spawned => c.state == Waiting
        case Backoff => c.state == Waiting
        case Up => c.state == Running
        case Exited => c.state != Terminated
        case Ending => c.state != Terminated
        case Retrying => c.state != Terminated
        case Done => c.state == Terminated)
  }

  datatype Act =
    | ToBegin
    | ToFail(why: string)
    | ToSpawn
    | ToMarkUp
    | ToExit(code: int)
    | ToCheck
    | ToSettle(long: bool)
    | ToWake

  /** The section that act a names may run at this place. */
  predicate Ready(c: Record, a: Act) {
    match a
    case ToBegin => c.place == Idle || c.place == Looping
    case ToFail(_) => c.place == Starting
    case ToSpawn => c.place == Starting
    case ToMarkUp => c.place == Spawned
    case ToExit(_) => c.place == Up
    case ToCheck => c.place == Exited
    case ToSettle(_) => c.place == Ending || c.place == Retrying
    case ToWake => c.place == Backoff
  }

  function Apply(c: Record, policy: string, stopping: bool, a: Act): Record {
    match a
    case ToBegin => Begin(c)
    case ToFail(why) => FailStart(c, why)
    case ToSpawn => Spawn(c)
    case ToMarkUp => MarkUp(c)
    case ToExit(code) => Exit(c, code)
    case ToCheck => Check(c, policy, stopping)
    case ToSettle(long) => if c.place == Ending then End(c) else Retry(c, long)
    case ToWake => Wake(c, stopping)
  }

  lemma ApplyTallied(c: Record, policy: string, stopping: bool, a: Act)
    requires Tallied(c, policy) && Ready(c, a)
    ensures Tallied(Apply(c, policy, stopping, a), policy)
  {
  }

  // ---------------------------------------------------------------- the goroutine itself

  /**
   What one turn of the loop meets: the start's failure or the process's exit, how long it ran, and the stop
   flag twice.
   */
  datatype Turn = Turn(failed: bool, why: string, code: int, long: bool, stopNow: bool, stopLater: bool)

  function Started(c: Record, t: Turn): Record {
    if t.failed then FailStart(Begin(c), t.why) else Exit(MarkUp(Spawn(Begin(c))), t.code)
  }

  function Resumed(c: Record, t: Turn): Record {
    var r := Wake(Retry(c, t.long), t.stopLater);
    if r.place == Ending then End(r) else r
  }

  /** A whole turn of supervise. */
  function TurnStep(c: Record, policy: string, t: Turn): Record {
    var r := Check(Started(c, t), policy, t.stopNow);
    if r.place == Ending then End(r) else Resumed(r, t)
  }

  /** supervise over a script of turns: until one is the last, or the script is used up. */
  function SuperviseAll(c: Record, policy: string, ts: seq<Turn>): Record
    decreases ts
  {
    if ts == [] then
      c
    else
      var r := TurnStep(c, policy, ts[0]);
      if r.place == Done then r else SuperviseAll(r, policy, ts[1..])
  }

  function CodeOf(t: Turn): int {
    if t.failed then START_FAILED else t.code
  }

  /** The loop ends after this turn. */
  predicate Last(policy: string, t: Turn) {
    t.stopNow || t.stopLater || !ShouldRestart(policy, CodeOf(t))
  }

  /** The acts of a start and of the whole turn. */
  function ActsOf(policy: string, t: Turn): seq<Act> {
    (if t.failed then [ToBegin, ToFail(t.why)] else [ToBegin, ToSpawn, ToMarkUp, ToExit(t.code)])
    + [ToCheck, ToSettle(t.long)]
    + (if t.stopNow || !ShouldRestart(policy, CodeOf(t)) then [] else if t.stopLater then [ToWake, ToSettle(t.long)]
       else [ToWake])
  }

  /** The stop flag as act k of the turn finds it. */
  function StopAt(t: Turn, k: nat): bool {
    if k <= (if t.failed then 2 else 4) then t.stopNow else t.stopLater
  }

  function ApplyAll(c: Record, policy: string, t: Turn, acts: seq<Act>, k: nat): Record
    requires k <= |acts|
  {
    if k == 0 then c else Apply(ApplyAll(c, policy, t, acts, k - 1), policy, StopAt(t, k - 1), acts[k - 1])
  }

  /** A turn of the loop is its sections one after the other, each ready when it is its turn. */
  lemma TurnIsActs(c: Record, policy: string, t: Turn)
    requires Ready(c, ToBegin)
    ensures var acts := ActsOf(policy, t);
            && (forall k :: 0 <= k < |acts| ==> Ready(ApplyAll(c, policy, t, acts, k), acts[k]))
            && TurnStep(c, policy, t) == ApplyAll(c, policy, t, acts, |acts|)
  {
    var acts := ActsOf(policy, t);
    ActsOfStart(c, policy, t, acts);
    ActsOfEnd(c, policy, t, acts);
  }

  /** The sections behind the start: the decision, what follows from it, and the waking. */
  lemma ActsOfEnd(c: Record, policy: string, t: Turn, acts: seq<Act>)
    requires acts == ActsOf(policy, t)
    requires var s := if t.failed then 2 else 4; ApplyAll(c, policy, t, acts, s) == Started(c, t)
    ensures var s := if t.failed then 2 else 4;
            forall k :: s <= k < |acts| ==> Ready(ApplyAll(c, policy, t, acts, k), acts[k])
    ensures TurnStep(c, policy, t) == ApplyAll(c, policy, t, acts, |acts|)
  {
    var s, r := if t.failed then 2 else 4, Started(c, t);
    var u := Check(r, policy, t.stopNow);
    assert acts[s] == ToCheck && acts[s + 1] == ToSettle(t.long);
    assert ApplyAll(c, policy, t, acts, s + 1) == u;
    if u.place == Ending {
      assert |acts| == s + 2 && ApplyAll(c, policy, t, acts, s + 2) == End(u);
    } else {
      ActsOfRetry(c, policy, t, acts, u);
    }
  }

  lemma ActsOfRetry(c: Record, policy: string, t: Turn, acts: seq<Act>, u: Record)
    requires acts == ActsOf(policy, t) && u.place == Retrying && u == Check(Started(c, t), policy, t.stopNow)
    requires var s := if t.failed then 2 else 4; ApplyAll(c, policy, t, acts, s + 1) == u
    ensures var s := if t.failed then 2 else 4;
            forall k :: s < k < |acts| ==> Ready(ApplyAll(c, policy, t, acts, k), acts[k])
    ensures Resumed(u, t) == ApplyAll(c, policy, t, acts, |acts|)
  {
    var s, v := if t.failed then 2 else 4, Retry(u, t.long);
    assert acts[s + 1] == ToSettle(t.long) && acts[s + 2] == ToWake;
    assert ApplyAll(c, policy, t, acts, s + 2) == v;
    assert ApplyAll(c, policy, t, acts, s + 3) == Wake(v, t.stopLater);
    assert t.stopLater ==> |acts| == s + 4 && acts[s + 3] == ToSettle(t.long);
  }

  lemma ActsOfStart(c: Record, policy: string, t: Turn, acts: seq<Act>)
    requires Ready(c, ToBegin) && acts == ActsOf(policy, t)
    ensures var s := if t.failed then 2 else 4;
            && s + 2 <= |acts| && ApplyAll(c, policy, t, acts, s) == Started(c, t)
            && forall k :: 0 <= k < s ==> Ready(ApplyAll(c, policy, t, acts, k), acts[k])
  {
    assert ApplyAll(c, policy, t, acts, 1) == Begin(c);
    if !t.failed {
      assert ApplyAll(c, policy, t, acts, 2) == Spawn(Begin(c));
      assert ApplyAll(c, policy, t, acts, 3) == MarkUp(Spawn(Begin(c)));
    }
  }

  lemma TurnTallied(c: Record, policy: string, t: Turn)
    requires Tallied(c, policy) && Ready(c, ToBegin)
    ensures var r := TurnStep(c, policy, t);
            && Tallied(r, policy) && (r.place == Looping || r.place == Done)
            && (r.place == Done <==> Last(policy, t)) && r.exitCode == CodeOf(t)
            && r.starts == c.starts + 1
            && r.restarts == c.restarts + (if t.stopNow || !ShouldRestart(policy, CodeOf(t)) then 0 else 1)
  {
  }

  /** k is the first turn after which the loop ends. */
  predicate FirstLast(policy: string, ts: seq<Turn>, k: nat) {
    k < |ts| && Last(policy, ts[k]) && forall j :: 0 <= j < k ==> !Last(policy, ts[j])
  }

  /**
   Supervision ends with the first last turn: one start a turn, that turn's code, and a restart for every
   earlier one.
   */
  lemma {:induction false} SuperviseEnds(c: Record, policy: string, ts: seq<Turn>, k: nat)
    requires Tallied(c, policy) && Ready(c, ToBegin) && FirstLast(policy, ts, k)
    ensures var r := SuperviseAll(c, policy, ts);
            && r.place == Done && r.state == Terminated && r.exitCode == CodeOf(ts[k]) && r.starts == c.starts + k + 1
            && r.restarts == c.restarts + k + (if ts[k].stopNow || !ShouldRestart(policy, CodeOf(ts[k])) then 0 else 1)
    decreases k
  {
    TurnTallied(c, policy, ts[0]);
    if k > 0 {
      assert FirstLast(policy, ts[1..], k - 1);
      SuperviseEnds(TurnStep(c, policy, ts[0]), policy, ts[1..], k - 1);
    }
  }

  /** A start that fails counts as exit 128: only Never, or a stop, makes it the last. */
  lemma FailedIsRetried(policy: string, t: Turn)
    requires t.failed
    ensures CodeOf(t) == 128
    ensures Last(policy, t) <==> t.stopNow || t.stopLater || policy == "Never"
  {
  }

  /** A process that ran counts with its own code. */
  lemma ExitedIsJudged(policy: string, t: Turn)
    requires !t.failed
    ensures CodeOf(t) == t.code
    ensures Last(policy, t) <==>
              t.stopNow || t.stopLater || policy == "Never" || (policy == "OnFailure" && t.code == 0)
  {
  }

  // ---------------------------------------------------------------- the back-off

  /** The turn starts the back-off over: it ran for long, or nothing has ever run. */
  predicate StartsOver(c: Record, t: Turn) {
    t.long || (t.failed && !c.upOnce)
  }

  /** How often the turns at the end of a script were quick ones, the container having run before. */
  function QuickTurns(c: Record, policy: string, ts: seq<Turn>, was: nat): nat
    decreases ts
  {
    if ts == [] then was
    else QuickTurns(TurnStep(c, policy, ts[0]), policy, ts[1..], if StartsOver(c, ts[0]) then 1 else was + 1)
  }

  lemma TurnBacksOff(c: Record, policy: string, t: Turn)
    requires !Last(policy, t)
    ensures var r, attempt := TurnStep(c, policy, t), if StartsOver(c, t) then 0 else c.attempt;
            && r.attempt == attempt + 1 && r.pause == PauseFor(attempt)
            && (r.upOnce <==> c.upOnce || !t.failed)
  {
  }

  /** After turns that all restarted, the last pause is as long as the run of quick turns at the end says. */
  lemma {:induction false} BacksOff(c: Record, policy: string, ts: seq<Turn>)
    requires ts != [] && forall j :: 0 <= j < |ts| ==> !Last(policy, ts[j])
    ensures var r, n := SuperviseAll(c, policy, ts), QuickTurns(c, policy, ts, c.attempt);
            n > 0 && r.attempt == n && r.pause == PauseFor(n - 1)
    decreases ts
  {
    TurnBacksOff(c, policy, ts[0]);
    NotYet(c, policy, ts);
    if |ts| > 1 {
      BacksOff(TurnStep(c, policy, ts[0]), policy, ts[1..]);
    }
  }

  /** A turn that is not the last leaves the rest of the script to do. */
  lemma NotYet(c: Record, policy: string, ts: seq<Turn>)
    requires ts != [] && !Last(policy, ts[0])
    ensures SuperviseAll(c, policy, ts) == SuperviseAll(TurnStep(c, policy, ts[0]), policy, ts[1..])
    ensures |ts| == 1 ==> SuperviseAll(c, policy, ts) == TurnStep(c, policy, ts[0])
  {
  }

  lemma {:induction false} AllQuick(c: Record, policy: string, ts: seq<Turn>, was: nat)
    requires forall j :: 0 <= j < |ts| ==> !ts[j].long && !Last(policy, ts[j])
    requires c.upOnce
    ensures QuickTurns(c, policy, ts, was) == was + |ts|
    decreases ts
  {
    if ts != [] {
      TurnBacksOff(c, policy, ts[0]);
      AllQuick(TurnStep(c, policy, ts[0]), policy, ts[1..], was + 1);
    }
  }

  /** A container that keeps crashing quickly waits 1, 2, 4, 8, 16 and then always 32 seconds. */
  lemma CrashesBackOff(policy: string, ts: seq<Turn>)
    requires ts != [] && !ts[0].failed && forall j :: 0 <= j < |ts| ==> !ts[j].long && !Last(policy, ts[j])
    ensures SuperviseAll(Fresh(), policy, ts).pause == [1, 2, 4, 8, 16, 32][if |ts| <= 6 then |ts| - 1 else 5]
  {
    TurnBacksOff(Fresh(), policy, ts[0]);
    AllQuick(TurnStep(Fresh(), policy, ts[0]), policy, ts[1..], 1);
    BacksOff(Fresh(), policy, ts);
  }

  lemma {:induction false} NeverUp(c: Record, policy: string, ts: seq<Turn>, was: nat)
    requires !c.upOnce && forall j :: 0 <= j < |ts| ==> ts[j].failed && !Last(policy, ts[j])
    ensures QuickTurns(c, policy, ts, was) == if ts == [] then was else 1
    decreases ts
  {
    if ts != [] {
      TurnBacksOff(c, policy, ts[0]);
      NeverUp(TurnStep(c, policy, ts[0]), policy, ts[1..], 1);
    }
  }

  /** One that can never be started waits a second each time. */
  lemma FailuresDoNot(policy: string, ts: seq<Turn>)
    requires ts != [] && forall j :: 0 <= j < |ts| ==> ts[j].failed && !Last(policy, ts[j])
    ensures SuperviseAll(Fresh(), policy, ts).pause == 1
  {
    NeverUp(Fresh(), policy, ts, 0);
    BacksOff(Fresh(), policy, ts);
  }

  /** Without one, the goroutine is still looping when the script ends. */
  lemma {:induction false} SuperviseLoops(c: Record, policy: string, ts: seq<Turn>)
    requires Tallied(c, policy) && Ready(c, ToBegin) && forall j :: 0 <= j < |ts| ==> !Last(policy, ts[j])
    ensures var r := SuperviseAll(c, policy, ts);
            Tallied(r, policy) && Ready(r, ToBegin) && r.starts == c.starts + |ts| && r.restarts == c.restarts + |ts|
    decreases ts
  {
    if ts != [] {
      TurnTallied(c, policy, ts[0]);
      SuperviseLoops(TurnStep(c, policy, ts[0]), policy, ts[1..]);
    }
  }

  class Process {
    var state: RunState
    var exitCode: int
    var restarts: nat
    var reason: string
    var started: bool // startedAt is set
    ghost var attempt: nat
    ghost var pause: nat
    ghost var place: Place
    ghost var starts: nat
    ghost var cut: bool

    ghost function View(): Record
      reads this
    {
      Record(state, exitCode, restarts, reason, attempt, pause, place, starts, started, cut)
    }

    constructor ()
      ensures View() == Fresh()
    {
      state, exitCode, restarts, reason, started := Waiting, 0, 0, "", false;
      attempt, pause, place, starts, cut := 0, 0, Idle, 0, false;
    }

    /** startOnce, and the section that records its outcome. */
    method StartOnce(t: Turn) returns (code: int)
      modifies this
      ensures View() == Started(old(View()), t) && code == exitCode
      ensures code == (if t.failed then 128 else t.code) && reason == (if t.failed then t.why else "")
      ensures state == (if t.failed then old(state) else Running)
    {
      place, starts := Exited, starts + 1;
      if t.failed {
        exitCode, reason := START_FAILED, t.why;
      } else {
        state, started := Running, true;
        exitCode, reason := t.code, "";
      }
      code := exitCode;
    }

    method Terminate()
      modifies this
      ensures View() == End(old(View()))
    {
      state := Terminated;
      place := Done;
    }

    /** The section after the decision to restart: count, and say why it waits. */
    method BackOff(n: nat, long: bool) returns (next: nat)
      requires attempt == n
      modifies this
      ensures View() == Retry(old(View()), long) && next == attempt
    {
      next := if long || !started then 0 else n;
      var seconds := PauseFor(next);
      state, restarts, reason := Waiting, restarts + 1, PauseReason(seconds);
      attempt, pause, place := next, seconds, Backoff;
    }

    /** After the decision to restart: wait, and look at the stop flag again. */
    method PauseAndResume(n: nat, t: Turn) returns (next: nat)
      requires attempt == n
      modifies this
      ensures View() == Resumed(old(View()), t) && (place == Looping ==> next == attempt)
    {
      next := BackOff(n, t.long);
      if t.stopLater {
        cut := true;
        Terminate();
      } else {
        next := next + 1;
        attempt, place := next, Looping;
      }
    }

    /** The script's first turns were taken and the rest is still to be. */
    ghost predicate Looped(policy: string, script: seq<Turn>, used: nat)
      requires used <= |script|
      reads this
    {
      && Ready(View(), ToBegin)
      && SuperviseAll(Fresh(), policy, script) == SuperviseAll(View(), policy, script[used..])
    }

    method OneTurn(n: nat, policy: string, t: Turn) returns (next: nat)
      requires attempt == n
      modifies this
      ensures View() == TurnStep(old(View()), policy, t) && (place == Looping ==> next == attempt)
    {
      next := n;
      var code := StartOnce(t);
      if t.stopNow || !ShouldRestart(policy, code) {
        Terminate();
      } else {
        next := PauseAndResume(n, t);
      }
    }

    /** supervise, for as many turns as the script has. */
    method Supervise(policy: string, script: seq<Turn>)
      requires View() == Fresh()
      modifies this
      ensures View() == SuperviseAll(Fresh(), policy, script)
    {
      var used, n := 0, 0;
      while used < |script| && state != Terminated
        invariant 0 <= used <= |script| && (place == Done || attempt == n) && Tallied(View(), policy)
        invariant if place == Done then View() == SuperviseAll(Fresh(), policy, script)
                  else Looped(policy, script, used)
        decreases |script| - used
      {
        TurnTallied(View(), policy, script[used]);
        n := OneTurn(n, policy, script[used]);
        used := used + 1;
        assert script[used - 1..][1..] == script[used..];
      }
    }
  }
}
