/** How far the promise to packets reaches if the kernel may overwrite elements: exactly as far as the 32-bit ids. */
module PacketLimits {
  import opened Wrappers
  import opened Bytes
  import opened FlowKey
  import opened ServiceLB
  import opened PacketPath

  /** Everything PacketsServed says about packet i. */
  ghost predicate Served(c: Config, y: Sys, i: nat)
    requires i < |y.packets|
  {
    var p := y.packets[i];
    && p.passes <= 2 && p.queuings <= 1
    && (p.stage == Passed ==> !InRange(c, p.bytes))
    && (p.stage.Translated? ==> GoesRight(c, p))
  }

  ghost predicate GoesRight(c: Config, p: InFlight) {
    && p.choice.Some? && ParseFlow(p.bytes).Some?
    && p.choice.value.flow == FlowOf(c, ParseFlow(p.bytes).value)
    && p.choice.value.endpoint in p.choice.value.told
    && p.stage == Translated(Target(p.choice.value.endpoint.addr, p.choice.value.endpoint.port % 0x1_0000))
  }

  ghost predicate AllServed(c: Config, y: Sys) {
    forall i :: 0 <= i < |y.packets| ==> Served(c, y, i)
  }

  // ---------------------------------------------------------------- a packet that waits too long

  /** A range of everything, and one text for every address. */
  function Everywhere(): Config {
    Config(Zeros(16), 0, a => "")
  }

  /** A bare TCP packet. */
  function Syn(): seq<byte> {
    [96, 0, 0, 0, 0, 0, TCP] + Zeros(37)
  }

  const FLOW: Flow := Flow("", 0, "tcp")

  lemma SynParses()
    ensures |Syn()| == 44 && ParseFlow(Syn()).Some? && FlowOf(Everywhere(), ParseFlow(Syn()).value) == FLOW
    ensures InRange(Everywhere(), Syn())
  {
  }

  /** The verdict on packet k, with a service that has a new only endpoint each time. */
  function ChurnVerdict(f: Flow, k: nat): Step {
    var ev := ChurnEvent(f, k);
    Verdict(k, ev.now, ev.later, ev.reply, ev.io, true)
  }

  /** k packets, each taken to its verdict; the first is then left waiting before the chain. */
  function Jam(f: Flow, k: nat): seq<Step> {
    if k == 0 then [] else Jam(f, k - 1) + [Arrive(Syn()), Chain(k - 1), ChurnVerdict(f, k - 1)]
  }

  function Waiting(f: Flow): InFlight {
    InFlight(Syn(), 1, AtChain, 1, 1, Some(Choice(f, Churner(0), [Churner(0)])))
  }

  ghost predicate Jammed(f: Flow, y: Sys, k: nat) {
    && Churned(f, y.lb, k) && |y.packets| == k
    && (k > 0 ==> y.packets[0] == Waiting(f))
  }

  lemma AfterThree(c: Config, steps: seq<Step>, r: Step, s: Step, t: Step)
    ensures After(c, steps + [r, s, t]) == Next(c, Next(c, Next(c, After(c, steps), r), s), t)
  {
    var a := steps + [r];
    var b := a + [s];
    assert steps + [r, s, t] == b + [t];
    AfterOne(c, b, t);
    AfterOne(c, a, s);
    AfterOne(c, steps, r);
  }

  lemma AfterOne(c: Config, steps: seq<Step>, s: Step)
    ensures After(c, steps + [s]) == Next(c, After(c, steps), s)
  {
    assert (steps + [s])[..|steps|] == steps;
  }

  /** A new packet up to the queue. */
  lemma Queue(c: Config, y: Sys, k: nat)
    requires |y.packets| == k && InRange(c, Syn())
    ensures Next(c, Next(c, y, Arrive(Syn())), Chain(k))
            == y.(packets := y.packets + [InFlight(Syn(), 0, Queued, 1, 1, None)])
  {
    var p := InFlight(Syn(), 0, AtChain, 0, 0, None);
    assert (y.packets + [p])[k := p.(stage := Queued, passes := 1, queuings := 1)]
        == y.packets + [p.(stage := Queued, passes := 1, queuings := 1)];
  }

  /** Its verdict: one more churning pick, and packet 0 is marked first and left alone later. */
  lemma JamVerdict(c: Config, y: Sys, z: Sys, k: nat, f: Flow)
    requires ParseFlow(Syn()).Some? && FlowOf(c, ParseFlow(Syn()).value) == f
    requires Jammed(f, y, k) && z == y.(packets := y.packets + [InFlight(Syn(), 0, Queued, 1, 1, None)])
    ensures Jammed(f, Next(c, z, ChurnVerdict(f, k)), k + 1)
  {
    var s, ev := ChurnVerdict(f, k), ChurnEvent(f, k);
    assert EventOf(c, ParseFlow(Syn()).value, s) == ev;
    ChurnStep(f, y.lb, k);
    ChurnKeeps(f, y.lb, PickStep(y.lb, ev).lb, k);
    if k == 0 {
      assert Current(y.lb, ev).value.endpoints == [Churner(0)];
    }
  }

  lemma JamStep(c: Config, y: Sys, k: nat, f: Flow)
    requires ParseFlow(Syn()).Some? && FlowOf(c, ParseFlow(Syn()).value) == f && InRange(c, Syn())
    requires Jammed(f, y, k)
    ensures Jammed(f, Next(c, Next(c, Next(c, y, Arrive(Syn())), Chain(k)), ChurnVerdict(f, k)), k + 1)
  {
    Queue(c, y, k);
    JamVerdict(c, y, Next(c, Next(c, y, Arrive(Syn())), Chain(k)), k, f);
  }

  lemma {:induction false} JamRuns(c: Config, f: Flow, k: nat)
    requires ParseFlow(Syn()).Some? && FlowOf(c, ParseFlow(Syn()).value) == f && InRange(c, Syn())
    ensures Jammed(f, After(c, Jam(f, k)), k)
  {
    if k > 0 {
      JamRuns(c, f, k - 1);
      AfterThree(c, Jam(f, k - 1), Arrive(Syn()), Chain(k - 1), ChurnVerdict(f, k - 1));
      JamStep(c, After(c, Jam(f, k - 1)), k - 1, f);
    }
  }

  /** When it moves on after 2^32 allocations, its mark leads to another endpoint. */
  lemma JamBreaks(n: nat) returns (steps: seq<Step>)
    requires n > WIDTH
    ensures After(Everywhere(), steps).lb.issued == n && !AllServed(Everywhere(), After(Everywhere(), steps))
  {
    var c, y := Everywhere(), After(Everywhere(), Jam(FLOW, n));
    SynParses();
    JamRuns(c, FLOW, n);
    steps := Jam(FLOW, n) + [Chain(0)];
    assert steps[..|steps| - 1] == Jam(FLOW, n);
    var z := After(c, steps);
    assert z == Next(c, y, Chain(0));
    var k: nat :| HoldsFirst(y.lb, n, k);
    ChurnersDiffer(k, 0);
    assert z.packets[0].stage == Translated(ElementOf(Churner(k)));
    assert !GoesRight(c, z.packets[0]);
    assert !Served(c, z, 0);
  }

  /** Whatever the kernel does, the promise to packets holds in every run of n allocations exactly up to n = 2^32. */
  lemma PacketsServedExactly(n: nat)
    ensures (forall c, steps :: After(c, steps).lb.issued == n ==> AllServed(c, After(c, steps))) <==> n <= WIDTH
  {
    if n <= WIDTH {
      forall c, steps | After(c, steps).lb.issued == n ensures AllServed(c, After(c, steps)) {
        FewRefusing(c, steps);
        forall i | 0 <= i < |After(c, steps).packets| ensures Served(c, After(c, steps), i) {
          PacketsServed(c, steps, i);
        }
      }
    } else {
      var steps := JamBreaks(n);
    }
  }
}
