/**
 Packets through the two rules of the NAT chain and the queue's verdict callback,
 any number in flight at once, in any order.
 */
module PacketPath {
  import opened Wrappers
  import opened Bytes
  import opened FlowKey
  import opened ServiceLB

  datatype Stage = AtChain | Queued | Unanswered | Dropped | Passed | Translated(to: Target)

  /** Why a packet carries its mark: the endpoint chosen for it and what its flow was last told. */
  datatype Choice = Choice(flow: Flow, endpoint: Endpoint, told: seq<Endpoint>)

  datatype InFlight = InFlight(bytes: seq<byte>, mark: nat, stage: Stage, passes: nat, queuings: nat,
                               choice: Option<Choice>)

  /** The service range as an address and how many of its leading bits count, and the text of an address. */
  datatype Config = Config(net: seq<byte>, prefix: nat, text: seq<byte> -> string)

  datatype Sys = Sys(lb: Balancer, packets: seq<InFlight>, known: map<Flow, seq<Endpoint>>)

  datatype Step =
    | Arrive(bytes: seq<byte>)
    | Chain(i: nat)
    | Verdict(i: nat, now: int, later: int, reply: Result<Answer>, io: KernelIO, sent: bool)

  // ---------------------------------------------------------------- the rules

  /** b under a mask of so many leading ones: the low bits are cut off. */
  function Masked(b: byte, ones: int): byte {
    if ones <= 0 then 0
    else if ones == 1 then b - b % 128
    else if ones == 2 then b - b % 64
    else if ones == 3 then b - b % 32
    else if ones == 4 then b - b % 16
    else if ones == 5 then b - b % 8
    else if ones == 6 then b - b % 4
    else if ones == 7 then b - b % 2
    else b
  }

  /** ip6 daddr in the service range: 16 bytes at offset 24, masked. */
  predicate InRange(c: Config, pkt: seq<byte>) {
    && |pkt| >= 40 && |c.net| >= 16
    && forall k :: 0 <= k < 16 ==> Masked(pkt[24 + k], c.prefix - 8 * k) == c.net[k]
  }

  /** Rule 1 translates marked packets through the map, rule 2 queues unmarked ones. */
  function ThroughChain(c: Config, lb: Balancer, p: InFlight): InFlight {
    var q := p.(passes := p.passes + 1);
    if !InRange(c, p.bytes) then
      q.(stage := Passed)
    else if p.mark != 0 then
      q.(stage := if p.mark in lb.eps then Translated(lb.eps[p.mark]) else Passed)
    else
      q.(stage := Queued, queuings := p.queuings + 1)
  }

  function FlowOf(c: Config, h: Header): (f: Flow) {
    Flow(c.text(h.dst), h.port, h.proto)
  }

  // ---------------------------------------------------------------- steps

  function EventOf(c: Config, h: Header, s: Step): Event
    requires s.Verdict?
  {
    Event(FlowOf(c, h), s.now, s.later, s.reply, s.io)
  }

  function ChoiceOf(y: Sys, ev: Event): Option<Choice> {
    var r, cur := PickStep(y.lb, ev), Current(y.lb, ev);
    if cur.Some? && r.position.Some? && r.position.value < |cur.value.endpoints| then
      Some(Choice(ev.flow, cur.value.endpoints[r.position.value], cur.value.endpoints))
    else
      None
  }

  /** The verdict callback: drop what cannot be served, otherwise mark and repeat. */
  function Decide(c: Config, y: Sys, s: Step): Sys
    requires s.Verdict? && s.i < |y.packets|
  {
    var p := y.packets[s.i];
    match ParseFlow(p.bytes)
    case None => y.(packets := y.packets[s.i := p.(stage := Dropped)])
    case Some(h) =>
      var ev := EventOf(c, h, s);
      var r := PickStep(y.lb, ev);
      var p' :=
        if r.mark.Err? || r.mark.value == 0 then p.(stage := Dropped)
        else p.(stage := if s.sent then AtChain else Unanswered, mark := r.mark.value, choice := ChoiceOf(y, ev));
      Sys(r.lb, y.packets[s.i := p'], Learned(y.known, y.lb, ev))
  }

  predicate Enabled(y: Sys, s: Step) {
    match s
    case Arrive(_) => true
    case Chain(i) => i < |y.packets| && y.packets[i].stage == AtChain
    case Verdict(i, _, _, _, _, _) => i < |y.packets| && y.packets[i].stage == Queued
  }

  /** One step of the system; a step that is not enabled does nothing. */
  function Next(c: Config, y: Sys, s: Step): Sys {
    if !Enabled(y, s) then
      y
    else
      match s
      case Arrive(bytes) => y.(packets := y.packets + [InFlight(bytes, 0, AtChain, 0, 0, None)])
      case Chain(i) => y.(packets := y.packets[i := ThroughChain(c, y.lb, y.packets[i])])
      case Verdict(_, _, _, _, _, _) => Decide(c, y, s)
  }

  function After(c: Config, steps: seq<Step>): Sys {
    if steps == [] then Sys(Start(), [], map[]) else Next(c, After(c, steps[..|steps| - 1]), steps[|steps| - 1])
  }

  // ---------------------------------------------------------------- what every packet keeps

  /** The mark is the chosen endpoint's and the kernel knows it; the choice is the packet's own flow's. */
  ghost predicate MarkedRight(c: Config, lb: Balancer, p: InFlight) {
    && p.choice.Some? && ParseFlow(p.bytes).Some? && p.choice.value.flow == FlowOf(c, ParseFlow(p.bytes).value)
    && p.choice.value.endpoint in p.choice.value.told
    && p.mark in lb.eps && lb.eps[p.mark] == ElementOf(p.choice.value.endpoint)
  }

  ghost predicate PacketOk(c: Config, lb: Balancer, p: InFlight) {
    && p.queuings <= 1 && p.passes <= p.queuings + 1
    && (p.mark == 0 <==> p.choice.None?) && (p.mark != 0 ==> MarkedRight(c, lb, p))
    && match p.stage
       case AtChain =>
         p.passes == p.queuings && (p.mark == 0 <==> p.passes == 0) && (p.mark != 0 ==> InRange(c, p.bytes))
       case Queued => p.passes == 1 && p.queuings == 1 && p.mark == 0 && InRange(c, p.bytes)
       case Unanswered => p.mark != 0
       case Dropped => p.mark == 0
       case Passed => p.mark == 0 && !InRange(c, p.bytes)
       case Translated(to) =>
         p.passes == 2 && p.mark != 0 && InRange(c, p.bytes) && to == ElementOf(p.choice.value.endpoint)
  }

  ghost predicate Safe(c: Config, y: Sys) {
    && LeadsHome(y.lb) && Coherent(y.lb, y.known)
    && forall i :: 0 <= i < |y.packets| ==> PacketOk(c, y.lb, y.packets[i])
  }

  /** If the step is a verdict that allocates an id, the kernel refuses a clash. */
  predicate RefusingStep(c: Config, y: Sys, s: Step) {
    s.Verdict? && Enabled(y, s) && ParseFlow(y.packets[s.i].bytes).Some? ==>
      RefusesAt(y.lb, EventOf(c, ParseFlow(y.packets[s.i].bytes).value, s))
  }

  /** In every step of the run the kernel refuses to overwrite an element. */
  ghost predicate RefusingRun(c: Config, steps: seq<Step>) {
    forall k :: 0 <= k < |steps| ==> RefusingStep(c, After(c, steps[..k]), steps[k])
  }

  lemma RefusingBefore(c: Config, steps: seq<Step>, n: nat)
    requires RefusingRun(c, steps) && n <= |steps|
    ensures RefusingRun(c, steps[..n])
    ensures n < |steps| ==> RefusingStep(c, After(c, steps[..n]), steps[n])
  {
    forall k | 0 <= k < n ensures RefusingStep(c, After(c, steps[..n][..k]), steps[..n][k]) {
      assert steps[..n][..k] == steps[..k];
    }
  }

  /** Later allocations do not disturb a packet. */
  lemma PacketExtends(c: Config, b: Balancer, b': Balancer, p: InFlight)
    requires PacketOk(c, b, p) && Extends(b, b')
    ensures PacketOk(c, b', p)
  {
  }

  lemma ChainKeeps(c: Config, lb: Balancer, p: InFlight)
    requires PacketOk(c, lb, p) && p.stage == AtChain
    ensures PacketOk(c, lb, ThroughChain(c, lb, p))
  {
  }

  /** What the verdict callback makes of its packet. */
  lemma Decided(c: Config, y: Sys, s: Step) returns (p': InFlight)
    requires LeadsHome(y.lb) && Coherent(y.lb, y.known) && s.Verdict? && Enabled(y, s) && RefusingStep(c, y, s)
    ensures Decide(c, y, s).packets == y.packets[s.i := p']
    ensures LeadsHome(Decide(c, y, s).lb) && Coherent(Decide(c, y, s).lb, Decide(c, y, s).known)
    ensures Extends(y.lb, Decide(c, y, s).lb)
    ensures PacketOk(c, y.lb, y.packets[s.i]) ==> PacketOk(c, Decide(c, y, s).lb, p')
    ensures p'.mark != 0 && y.packets[s.i].mark == 0 ==>
              && p'.choice.Some? && p'.choice.value.flow in Decide(c, y, s).known
              && p'.choice.value.told == Decide(c, y, s).known[p'.choice.value.flow]
  {
    var p := y.packets[s.i];
    p' := Decide(c, y, s).packets[s.i];
    if ParseFlow(p.bytes).Some? {
      var ev := EventOf(c, ParseFlow(p.bytes).value, s);
      CoherentStep(y.lb, y.known, ev);
      PickExtends(y.lb, ev);
      var r := PickStep(y.lb, ev);
      if r.mark.Ok? && r.mark.value != 0 {
        var e := PickIssues(y.lb, ev);
        assert ChoiceOf(y, ev) == Some(Choice(ev.flow, e, Current(y.lb, ev).value.endpoints));
      }
    }
  }

  lemma DecideKeeps(c: Config, y: Sys, s: Step)
    requires Safe(c, y) && s.Verdict? && Enabled(y, s) && RefusingStep(c, y, s)
    ensures Safe(c, Decide(c, y, s))
  {
    var p' := Decided(c, y, s);
    var z := Decide(c, y, s);
    forall i | 0 <= i < |z.packets| ensures PacketOk(c, z.lb, z.packets[i]) {
      PacketExtends(c, y.lb, z.lb, y.packets[i]);
    }
  }

  lemma NextKeeps(c: Config, y: Sys, s: Step)
    requires Safe(c, y) && RefusingStep(c, y, s)
    ensures Safe(c, Next(c, y, s))
  {
    if Enabled(y, s) {
      match s
      case Arrive(_) =>
      case Chain(i) => ChainKeeps(c, y.lb, y.packets[i]);
      case Verdict(_, _, _, _, _, _) => DecideKeeps(c, y, s);
    }
  }

  lemma {:induction false} AlwaysSafe(c: Config, steps: seq<Step>)
    requires RefusingRun(c, steps)
    ensures Safe(c, After(c, steps))
  {
    if steps != [] {
      var n := |steps| - 1;
      RefusingBefore(c, steps, n);
      AlwaysSafe(c, steps[..n]);
      NextKeeps(c, After(c, steps[..n]), steps[n]);
    }
  }

  // ---------------------------------------------------------------- few allocations

  lemma NextMarks(c: Config, y: Sys, s: Step)
    requires MarksOk(y.lb)
    ensures MarksOk(Next(c, y, s).lb) && y.lb.issued <= Next(c, y, s).lb.issued
    ensures Next(c, y, s).lb.issued <= WIDTH ==> RefusingStep(c, y, s)
  {
    if s.Verdict? && Enabled(y, s) && ParseFlow(y.packets[s.i].bytes).Some? {
      var ev := EventOf(c, ParseFlow(y.packets[s.i].bytes).value, s);
      PickKeepsMarks(y.lb, ev);
      if Next(c, y, s).lb.issued <= WIDTH {
        NothingToRefuse(y.lb, ev);
      }
    }
  }

  /** A run of up to 2^32 allocations holds nothing to refuse. */
  lemma {:induction false} FewRefusing(c: Config, steps: seq<Step>)
    ensures MarksOk(After(c, steps).lb)
    ensures After(c, steps).lb.issued <= WIDTH ==> RefusingRun(c, steps)
  {
    if steps != [] {
      var n := |steps| - 1;
      FewRefusing(c, steps[..n]);
      NextMarks(c, After(c, steps[..n]), steps[n]);
      if After(c, steps).lb.issued <= WIDTH {
        forall k | 0 <= k < |steps| ensures RefusingStep(c, After(c, steps[..k]), steps[k]) {
          if k < n {
            assert steps[..n][..k] == steps[..k] && steps[..n][k] == steps[k];
          }
        }
      }
    }
  }

  // ---------------------------------------------------------------- the promises

  /**
   In every run, a packet crosses the chain at most twice and is queued at most once; one for
   the service range never slips through untranslated, and a translated one goes to the
   endpoint its mark was issued for, which its own flow was told of.
   */
  lemma PacketsServed(c: Config, steps: seq<Step>, i: nat)
    requires RefusingRun(c, steps) && i < |After(c, steps).packets|
    ensures var p := After(c, steps).packets[i];
            && p.passes <= 2 && p.queuings <= 1
            && (p.stage == Passed ==> !InRange(c, p.bytes))
            && (p.stage.Translated? ==>
                  && p.mark != 0 && p.choice.Some? && ParseFlow(p.bytes).Some?
                  && p.choice.value.flow == FlowOf(c, ParseFlow(p.bytes).value)
                  && p.choice.value.endpoint in p.choice.value.told
                  && p.stage.to == Target(p.choice.value.endpoint.addr, p.choice.value.endpoint.port % 0x1_0000))
  {
    AlwaysSafe(c, steps);
    var p := After(c, steps).packets[i];
    assert PacketOk(c, After(c, steps).lb, p);
    if p.stage.Translated? {
      ElementIs(p.choice.value.endpoint);
    }
  }

  /** When a verdict marks a packet, what the packet's flow was told is its latest successful answer at that moment. */
  lemma ToldIsLatest(c: Config, steps: seq<Step>, s: Step)
    requires RefusingRun(c, steps) && RefusingStep(c, After(c, steps), s)
    requires s.Verdict? && Enabled(After(c, steps), s)
    requires Next(c, After(c, steps), s).packets[s.i].mark != 0
    ensures var z := Next(c, After(c, steps), s);
            && z.packets[s.i].choice.Some? && z.packets[s.i].choice.value.flow in z.known
            && z.packets[s.i].choice.value.told == z.known[z.packets[s.i].choice.value.flow]
  {
    AlwaysSafe(c, steps);
    assert PacketOk(c, After(c, steps).lb, After(c, steps).packets[s.i]);
    var p' := Decided(c, After(c, steps), s);
  }

  /** A step leaves alone what a packet was marked with, unless it is the packet's verdict. */
  lemma OthersLeft(c: Config, y: Sys, s: Step, i: nat)
    requires i < |y.packets| && y.packets[i].stage != Queued
    ensures i < |Next(c, y, s).packets|
    ensures var p, q := y.packets[i], Next(c, y, s).packets[i];
            q.choice == p.choice && q.mark == p.mark && q.bytes == p.bytes
  {
  }

  /** A decided packet's choice is never revised. */
  lemma ChoiceFinal(c: Config, steps: seq<Step>, s: Step, i: nat)
    requires RefusingRun(c, steps) && i < |After(c, steps).packets| && After(c, steps).packets[i].choice.Some?
    ensures i < |Next(c, After(c, steps), s).packets|
    ensures var p, q := After(c, steps).packets[i], Next(c, After(c, steps), s).packets[i];
            q.choice == p.choice && q.mark == p.mark && q.bytes == p.bytes
  {
    AlwaysSafe(c, steps);
    assert PacketOk(c, After(c, steps).lb, After(c, steps).packets[i]);
    OthersLeft(c, After(c, steps), s, i);
  }

  // ---------------------------------------------------------------- and what becomes of a packet

  /** An unmarked packet is queued exactly if it is for the service range, and otherwise left alone. */
  lemma Diverted(c: Config, y: Sys, i: nat)
    requires Enabled(y, Chain(i)) && y.packets[i].mark == 0
    ensures Next(c, y, Chain(i)).packets[i].stage == if InRange(c, y.packets[i].bytes) then Queued else Passed
    ensures Next(c, y, Chain(i)).lb == y.lb
  {
  }

  /** The event of a verdict on packet s.i. */
  ghost predicate VerdictOn(c: Config, y: Sys, s: Step, ev: Event) {
    && s.Verdict? && Enabled(y, s) && ParseFlow(y.packets[s.i].bytes).Some?
    && ev == EventOf(c, ParseFlow(y.packets[s.i].bytes).value, s)
  }

  /** A packet is dropped at its verdict exactly if it is none of a flow, or its pick finds no endpoint or fails. */
  lemma DroppedExactly(c: Config, y: Sys, s: Step)
    requires s.Verdict? && Enabled(y, s)
    ensures Next(c, y, s).packets[s.i].stage == Dropped <==>
              || ParseFlow(y.packets[s.i].bytes).None?
              || PickStep(y.lb, EventOf(c, ParseFlow(y.packets[s.i].bytes).value, s)).mark in {Err, Ok(0)}
  {
  }

  /**
   Any other packet in the range, its verdict sent, is translated the next time it meets the chain: to the
   endpoint its pick chose.
   */
  lemma GetsThrough(c: Config, y: Sys, s: Step, ev: Event)
    requires LeadsHome(y.lb) && RefusingStep(c, y, s) && VerdictOn(c, y, s, ev) && s.sent
    requires InRange(c, y.packets[s.i].bytes) && PickStep(y.lb, ev).mark !in {Err, Ok(0)}
    ensures var e := ChosenBy(y.lb, ev);
            Next(c, Next(c, y, s), Chain(s.i)).packets[s.i].stage == Translated(Target(e.addr, e.port % 0x1_0000))
  {
    var e := PickIssues(y.lb, ev);
    ElementIs(e);
  }

  // ---------------------------------------------------------------- where endpoints come from

  /** The verdict s asks the host about flow f, and the host answers. */
  predicate Asked(c: Config, y: Sys, s: Step, f: Flow) {
    && s.Verdict? && Enabled(y, s) && ParseFlow(y.packets[s.i].bytes).Some?
    && FlowOf(c, ParseFlow(y.packets[s.i].bytes).value) == f
    && Stale(y.lb, Key(f), s.now) && Answered(s.reply)
  }

  predicate AskedAt(c: Config, steps: seq<Step>, k: nat, f: Flow) {
    k < |steps| && Asked(c, After(c, steps[..k]), steps[k], f)
  }

  lemma KnownStep(c: Config, y: Sys, s: Step, f: Flow)
    ensures Asked(c, y, s, f) ==> f in Next(c, y, s).known && Next(c, y, s).known[f] == EndpointsOf(s.reply.value)
    ensures !Asked(c, y, s, f) ==>
              (f in Next(c, y, s).known <==> f in y.known) && (f in y.known ==> Next(c, y, s).known[f] == y.known[f])
  {
  }

  /** What a flow is known to be told is the host's latest answer for it. */
  lemma {:induction false} LatestAnswer(c: Config, steps: seq<Step>, f: Flow) returns (k: nat)
    requires f in After(c, steps).known
    ensures AskedAt(c, steps, k, f) && After(c, steps).known[f] == EndpointsOf(steps[k].reply.value)
    ensures forall j :: k < j < |steps| ==> !AskedAt(c, steps, j, f)
  {
    var init, s := steps[..|steps| - 1], steps[|steps| - 1];
    KnownStep(c, After(c, init), s, f);
    if Asked(c, After(c, init), s, f) {
      k := |init|;
    } else {
      k := LatestAnswer(c, init, f);
      assert init[..k] == steps[..k];
      forall j | k < j < |steps| ensures !AskedAt(c, steps, j, f) {
        if j < |init| {
          assert init[..j] == steps[..j] && !AskedAt(c, init, j, f);
        }
      }
    }
  }

  /** Step n is the verdict that marked packet i. */
  predicate MarkedAt(c: Config, steps: seq<Step>, i: nat, n: nat) {
    && n < |steps| && steps[n].Verdict? && steps[n].i == i && Enabled(After(c, steps[..n]), steps[n])
    && i < |After(c, steps[..n + 1]).packets| && After(c, steps[..n + 1]).packets[i].mark != 0
  }

  /** Only its own verdict marks a packet. */
  lemma MarkingStep(c: Config, y: Sys, s: Step, i: nat)
    requires i < |Next(c, y, s).packets| && Next(c, y, s).packets[i].mark != 0
    requires i >= |y.packets| || y.packets[i].mark == 0
    ensures s.Verdict? && s.i == i && Enabled(y, s)
  {
  }

  /** A step leaves a marked packet's choice alone. */
  lemma MarkedStays(c: Config, steps: seq<Step>, s: Step, i: nat)
    requires RefusingRun(c, steps) && i < |After(c, steps).packets| && After(c, steps).packets[i].mark != 0
    ensures i < |Next(c, After(c, steps), s).packets|
    ensures var p, q := After(c, steps).packets[i], Next(c, After(c, steps), s).packets[i];
            q.choice == p.choice && q.bytes == p.bytes && q.mark != 0
  {
    AlwaysSafe(c, steps);
    assert PacketOk(c, After(c, steps).lb, After(c, steps).packets[i]);
    ChoiceFinal(c, steps, s, i);
  }

  /** A marked packet was marked by one verdict of its own, and its choice dates from then. */
  lemma {:induction false} MarkedOnce(c: Config, steps: seq<Step>, i: nat) returns (n: nat, upTo: seq<Step>)
    requires RefusingRun(c, steps) && i < |After(c, steps).packets| && After(c, steps).packets[i].mark != 0
    ensures MarkedAt(c, steps, i, n) && upTo == steps[..n + 1]
    ensures i < |After(c, upTo).packets| && After(c, upTo).packets[i].choice == After(c, steps).packets[i].choice
    ensures After(c, upTo).packets[i].bytes == After(c, steps).packets[i].bytes
  {
    var last := |steps| - 1;
    var init, s := steps[..last], steps[last];
    var y := After(c, init);
    RefusingBefore(c, steps, last);
    if i < |y.packets| && y.packets[i].mark != 0 {
      MarkedStays(c, init, s, i);
      n, upTo := MarkedOnce(c, init, i);
      assert init[..n] == steps[..n] && init[..n + 1] == steps[..n + 1];
    } else {
      MarkingStep(c, y, s, i);
      n, upTo := last, steps;
      assert steps[..n + 1] == steps;
    }
  }

  /**
   The endpoint of a marked packet was in the host's latest answer for the packet's own flow
   when the packet got its verdict.
   */
  lemma ChosenFromLatest(c: Config, steps: seq<Step>, i: nat) returns (n: nat, k: nat)
    requires RefusingRun(c, steps) && i < |After(c, steps).packets| && After(c, steps).packets[i].mark != 0
    ensures MarkedAt(c, steps, i, n) && k <= n
    ensures var p := After(c, steps).packets[i];
            && p.choice.Some? && AskedAt(c, steps, k, p.choice.value.flow)
            && (forall j :: k < j <= n ==> !AskedAt(c, steps, j, p.choice.value.flow))
            && p.choice.value.endpoint in EndpointsOf(steps[k].reply.value)
  {
    var upTo: seq<Step>;
    n, upTo := MarkedOnce(c, steps, i);
    var init, s := steps[..n], steps[n];
    assert upTo[..n] == init && upTo[n] == s;
    AlwaysSafe(c, steps);
    assert PacketOk(c, After(c, steps).lb, After(c, steps).packets[i]);
    RefusingBefore(c, steps, n);
    ToldIsLatest(c, init, s);
    var f := After(c, steps).packets[i].choice.value.flow;
    k := LatestAnswer(c, upTo, f);
    AskedSame(c, steps, n + 1, f);
  }

  lemma AskedSame(c: Config, steps: seq<Step>, n: nat, f: Flow)
    requires n <= |steps|
    ensures forall j: nat :: j < n ==> (AskedAt(c, steps[..n], j, f) <==> AskedAt(c, steps, j, f))
  {
    forall j: nat | j < n ensures AskedAt(c, steps[..n], j, f) <==> AskedAt(c, steps, j, f) {
      assert steps[..n][..j] == steps[..j];
    }
  }
}
