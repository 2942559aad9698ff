/**
 The lazy ClusterIP balancer: marks for endpoints, the kernel's mark map, and the
 cached round-robin choice. The step functions say what one call does to a balancer
 held as a value; class SvcLB does it in place.
 */
module ServiceLB {
  import opened Wrappers
  import opened Bytes
  import opened FlowKey

  datatype Endpoint = Endpoint(addr: string, port: int)

  /** What a map element translates to: the address and a 16-bit port. */
  datatype Target = Target(addr: string, port: nat)

  datatype Answer = Answer(endpoints: seq<string>, targetPort: int, ttl: int, error: string)

  datatype CacheEntry = CacheEntry(endpoints: seq<Endpoint>, expiry: int, rr: nat)

  /** How a flush ends: committed, refused, or committed although the caller sees an error. */
  datatype Commit = Applied | Refused | AppliedUnseen

  datatype KernelIO = KernelIO(added: bool, commit: Commit)

  /** One queued packet's pick: its flow, the clock around the query, and what host and kernel reply. */
  datatype Event = Event(flow: Flow, now: int, later: int, reply: Result<Answer>, io: KernelIO)

  datatype Balancer = Balancer(epID: map<Endpoint, nat>, nextID: nat, cache: map<string, CacheEntry>,
                               eps: map<nat, Target>, issued: nat)

  const WIDTH: nat := 0x1_0000_0000

  function Start(): Balancer {
    Balancer(map[], 1, map[], map[], 0)
  }

  // ---------------------------------------------------------------- one step, as a value

  function ElementOf(e: Endpoint): Target {
    Target(e.addr, PortOf(e.port / 256 % 256, e.port % 256))
  }

  /** An element is the endpoint's own address and port, as far as 16 bits hold it. */
  lemma ElementIs(e: Endpoint)
    ensures ElementOf(e) == Target(e.addr, e.port % 0x1_0000)
    ensures 0 <= e.port < 0x1_0000 ==> ElementOf(e) == Target(e.addr, e.port)
  {
    var q, r := e.port / 0x1_0000, e.port % 0x1_0000;
    var h, l := r / 0x100, r % 0x100;
    assert e.port == 0x1_0000 * q + 0x100 * h + l;
    assert e.port / 0x100 == 0x100 * q + h && e.port % 0x100 == l;
    assert (0x100 * q + h) % 0x100 == h;
  }

  datatype IdResult = IdResult(lb: Balancer, id: Result<nat>)

  function IdStep(b: Balancer, e: Endpoint, io: KernelIO): IdResult {
    if e in b.epID then
      IdResult(b, Ok(b.epID[e]))
    else
      var id := b.nextID;
      var b1 := Reserved(b);
      if !io.added then
        IdResult(b1, Err)
      else
        var b2 := if io.commit == Refused then b1 else b1.(eps := b1.eps[id := ElementOf(e)]);
        if io.commit == Applied then IdResult(b2.(epID := b2.epID[e := id]), Ok(id)) else IdResult(b2, Err)
  }

  predicate Answered(reply: Result<Answer>) {
    reply.Ok? && reply.value.error == ""
  }

  predicate Stale(b: Balancer, key: string, now: int) {
    key !in b.cache || now > b.cache[key].expiry
  }

  function EndpointsOf(a: Answer): (es: seq<Endpoint>)
    ensures |es| == |a.endpoints| && forall i :: 0 <= i < |es| ==> es[i] == Endpoint(a.endpoints[i], a.targetPort)
  {
    seq(|a.endpoints|, i requires 0 <= i < |a.endpoints| => Endpoint(a.endpoints[i], a.targetPort))
  }

  const CACHE_TTL: int := 10

  function Fetched(prev: Option<CacheEntry>, a: Answer, later: int): CacheEntry {
    var ttl := if a.ttl <= 0 then CACHE_TTL else a.ttl;
    CacheEntry(EndpointsOf(a), later + ttl, if prev.Some? then prev.value.rr else 0)
  }

  function Cached(b: Balancer, key: string): Option<CacheEntry> {
    if key in b.cache then Some(b.cache[key]) else None
  }

  datatype PickResult = PickResult(lb: Balancer, mark: Result<nat>, position: Option<nat>)

  /** The entry the pick works from: the cached one, or one just fetched. */
  function Current(b: Balancer, ev: Event): Option<CacheEntry> {
    var key := Key(ev.flow);
    if !Stale(b, key, ev.now) then Some(b.cache[key])
    else if Answered(ev.reply) then Some(Fetched(Cached(b, key), ev.reply.value, ev.later))
    else None
  }

  /** Take the endpoint at the cursor and move the cursor on. */
  function ChooseStep(b: Balancer, key: string, io: KernelIO): PickResult
    requires key in b.cache
  {
    var ent := b.cache[key];
    if ent.endpoints == [] then
      PickResult(b, Ok(0), None)
    else
      var pos := ent.rr % |ent.endpoints|;
      var r := IdStep(b.(cache := b.cache[key := ent.(rr := ent.rr + 1)]), ent.endpoints[pos], io);
      PickResult(r.lb, r.id, Some(pos))
  }

  function PickStep(b: Balancer, ev: Event): PickResult {
    match Current(b, ev)
    case None => PickResult(b, Err, None)
    case Some(ent) => ChooseStep(b.(cache := b.cache[Key(ev.flow) := ent]), Key(ev.flow), ev.io)
  }

  /** The endpoint a pick chooses. */
  function ChosenBy(b: Balancer, ev: Event): Endpoint {
    var cur, pos := Current(b, ev), PickStep(b, ev).position;
    if cur.Some? && pos.Some? && pos.value < |cur.value.endpoints| then cur.value.endpoints[pos.value]
    else Endpoint("", 0)
  }

  // ---------------------------------------------------------------- what a pick goes by

  /** A pick asks the host exactly if its flow has no entry or an expired one. */
  predicate Asks(b: Balancer, ev: Event) {
    Key(ev.flow) !in b.cache || ev.now > b.cache[Key(ev.flow)].expiry
  }

  /** While its entry lasts, what the host would answer makes no difference. */
  lemma CacheAnswers(b: Balancer, ev: Event, reply: Result<Answer>)
    requires !Asks(b, ev)
    ensures PickStep(b, ev) == PickStep(b, ev.(reply := reply))
    ensures Current(b, ev) == Some(b.cache[Key(ev.flow)])
  {
  }

  /** Without an answer, or with one that names an error, the pick fails and changes nothing. */
  lemma Unanswered(b: Balancer, ev: Event)
    requires Asks(b, ev) && (ev.reply.Err? || ev.reply.value.error != "")
    ensures PickStep(b, ev) == PickResult(b, Err, None)
  {
  }

  /** An answer lasts as long as it says, or 10 seconds if it does not say. */
  lemma AnswerLasts(b: Balancer, ev: Event, next: Event)
    requires Asks(b, ev) && ev.reply.Ok? && ev.reply.value.error == "" && next.flow == ev.flow
    ensures var c, ttl := PickStep(b, ev).lb, ev.reply.value.ttl;
            && Key(ev.flow) in c.cache && c.cache[Key(ev.flow)].endpoints == EndpointsOf(ev.reply.value)
            && (Asks(c, next) <==> next.now > ev.later + (if ttl > 0 then ttl else 10))
  {
    CacheStep(b, ev);
  }

  /** A flow without endpoints gets mark 0 and costs no id. */
  lemma NoEndpoint(b: Balancer, ev: Event)
    requires Current(b, ev).Some? && Current(b, ev).value.endpoints == []
    ensures PickStep(b, ev).mark == Ok(0) && PickStep(b, ev).lb == b.(cache := PickStep(b, ev).lb.cache)
  {
  }

  /** An endpoint that has its mark gets it again, whatever the kernel says. */
  lemma KnownMark(b: Balancer, ev: Event)
    requires PickStep(b, ev).position.Some? && ChosenBy(b, ev) in b.epID
    ensures PickStep(b, ev).mark == Ok(b.epID[ChosenBy(b, ev)])
    ensures PickStep(b, ev).lb == b.(cache := PickStep(b, ev).lb.cache)
  {
    var b1, e, chose := PickIs(b, ev);
  }

  /** A new one gets the next id exactly if its element is added and committed and the caller sees it. */
  lemma NewMark(b: Balancer, ev: Event)
    requires PickStep(b, ev).position.Some? && ChosenBy(b, ev) !in b.epID
    ensures PickStep(b, ev).mark == if ev.io == KernelIO(true, Applied) then Ok(b.nextID) else Err
    ensures PickStep(b, ev).lb.nextID == (b.nextID + 1) % 0x1_0000_0000
  {
    var b1, e, chose := PickIs(b, ev);
  }

  // ---------------------------------------------------------------- marks

  /** id is one of the first n ids handed out, for n up to 2^32: 1, 2, ..., and 0 last of all. */
  predicate HandedOut(id: nat, n: nat) {
    (1 <= id <= n && id < WIDTH) || (id == 0 && n == WIDTH)
  }

  /** Until an id is handed out again, marks and the kernel's map say the same thing. */
  ghost predicate MarksOk(b: Balancer) {
    && b.nextID == (b.issued + 1) % 0x1_0000_0000
    && (b.issued <= WIDTH ==>
          && (forall e :: e in b.epID ==>
                HandedOut(b.epID[e], b.issued) && b.epID[e] in b.eps && b.eps[b.epID[e]] == ElementOf(e))
          && (forall e, f :: e in b.epID && f in b.epID && b.epID[e] == b.epID[f] ==> e == f)
          && (forall id :: id in b.eps ==> HandedOut(id, b.issued)))
  }

  /** Every mark and every map element of b is still there, unchanged, in c. */
  ghost predicate Extends(b: Balancer, c: Balancer) {
    && (forall e :: e in b.epID ==> e in c.epID && c.epID[e] == b.epID[e])
    && (forall id :: id in b.eps ==> id in c.eps && c.eps[id] == b.eps[id])
    && b.issued <= c.issued
  }

  function Reserved(b: Balancer): Balancer {
    b.(nextID := (b.nextID + 1) % 0x1_0000_0000, issued := b.issued + 1)
  }

  lemma ReserveKeeps(b: Balancer)
    requires MarksOk(b)
    ensures MarksOk(Reserved(b))
    ensures b.issued < WIDTH ==> HandedOut(b.nextID, b.issued + 1) && !HandedOut(b.nextID, b.issued)
  {
  }

  lemma ElementKeeps(b: Balancer, id: nat, t: Target)
    requires MarksOk(b) && (b.issued <= WIDTH ==> HandedOut(id, b.issued) && id !in b.eps)
    ensures MarksOk(b.(eps := b.eps[id := t]))
  {
  }

  lemma RecordKeeps(b: Balancer, e: Endpoint, id: nat)
    requires MarksOk(b)
    requires b.issued <= WIDTH ==>
               && HandedOut(id, b.issued) && id in b.eps && b.eps[id] == ElementOf(e)
               && forall f :: f in b.epID ==> b.epID[f] != id
    ensures MarksOk(b.(epID := b.epID[e := id]))
  {
  }

  lemma IdKeeps(b: Balancer, e: Endpoint, io: KernelIO)
    requires MarksOk(b)
    ensures var r := IdStep(b, e, io);
            && MarksOk(r.lb) && r.lb.cache == b.cache
            && (r.lb.issued <= WIDTH ==> Extends(b, r.lb))
            && (r.id.Ok? ==> e in r.lb.epID && r.lb.epID[e] == r.id.value)
  {
    if e !in b.epID {
      var id, b1 := b.nextID, Reserved(b);
      ReserveKeeps(b);
      if io.added && io.commit != Refused {
        ElementKeeps(b1, id, ElementOf(e));
        if io.commit == Applied {
          RecordKeeps(b1.(eps := b1.eps[id := ElementOf(e)]), e, id);
        }
      }
    }
  }

  /** A pick first touches only the cache, and then, if it chose an endpoint, finds the endpoint's id. */
  lemma PickIs(b: Balancer, ev: Event) returns (b1: Balancer, e: Endpoint, chose: bool)
    ensures b1 == b.(cache := b1.cache)
    ensures chose ==> PickStep(b, ev).lb == IdStep(b1, e, ev.io).lb && PickStep(b, ev).mark == IdStep(b1, e, ev.io).id
    ensures !chose ==> PickStep(b, ev).lb == b1 && PickStep(b, ev).mark in {Err, Ok(0)}
    ensures chose <==> PickStep(b, ev).position.Some?
    ensures chose ==> var cur, pos := Current(b, ev), PickStep(b, ev).position;
                      && cur.Some? && pos.Some? && pos.value < |cur.value.endpoints|
                      && e == cur.value.endpoints[pos.value] && e == ChosenBy(b, ev)
  {
    var cur := Current(b, ev);
    if cur.Some? && cur.value.endpoints != [] {
      var ent := cur.value;
      var b0 := b.(cache := b.cache[Key(ev.flow) := ent]);
      b1, chose := b0.(cache := b0.cache[Key(ev.flow) := ent.(rr := ent.rr + 1)]), true;
      e := ent.endpoints[ent.rr % |ent.endpoints|];
    } else {
      b1, e, chose := PickStep(b, ev).lb, Endpoint("", 0), false;
    }
  }

  lemma SameMarks(b: Balancer, c: Balancer)
    requires MarksOk(b) && c == b.(cache := c.cache)
    ensures MarksOk(c)
  {
  }

  lemma PickKeepsMarks(b: Balancer, ev: Event)
    requires MarksOk(b)
    ensures MarksOk(PickStep(b, ev).lb) && b.issued <= PickStep(b, ev).lb.issued
  {
    var b1, e, chose := PickIs(b, ev);
    SameMarks(b, b1);
    if chose {
      IdKeeps(b1, e, ev.io);
    }
  }

  // ---------------------------------------------------------------- a kernel that refuses

  /** The kernel does not take an element for a key it has with other data. */
  predicate Refuses(b: Balancer, e: Endpoint, io: KernelIO) {
    e !in b.epID && b.nextID in b.eps && b.eps[b.nextID] != ElementOf(e) ==> !io.added || io.commit == Refused
  }

  predicate RefusesAt(b: Balancer, ev: Event) {
    PickStep(b, ev).position.Some? ==> Refuses(b, ChosenBy(b, ev), ev.io)
  }

  /** Every endpoint's mark leads to it. */
  ghost predicate LeadsHome(b: Balancer) {
    forall e :: e in b.epID ==> b.epID[e] in b.eps && b.eps[b.epID[e]] == ElementOf(e)
  }

  /** Nothing ever given out is lost in an allocation exactly if the kernel refuses clashing keys. */
  lemma IdExtends(b: Balancer, e: Endpoint, io: KernelIO)
    requires LeadsHome(b)
    ensures Extends(b, IdStep(b, e, io).lb) <==> Refuses(b, e, io)
    ensures Refuses(b, e, io) ==> LeadsHome(IdStep(b, e, io).lb)
    ensures var r := IdStep(b, e, io); r.id.Ok? ==> e in r.lb.epID && r.lb.epID[e] == r.id.value
  {
    if !Refuses(b, e, io) {
      assert IdStep(b, e, io).lb.eps[b.nextID] != b.eps[b.nextID];
    }
  }

  /** So it is in a pick. */
  lemma PickExtends(b: Balancer, ev: Event)
    requires LeadsHome(b)
    ensures Extends(b, PickStep(b, ev).lb) <==> RefusesAt(b, ev)
    ensures RefusesAt(b, ev) ==> LeadsHome(PickStep(b, ev).lb)
  {
    var b1, e, chose := PickIs(b, ev);
    if chose {
      IdExtends(b1, e, ev.io);
      SameExtends(b, b1, PickStep(b, ev).lb);
    }
  }

  lemma SameExtends(b: Balancer, b1: Balancer, c: Balancer)
    requires b1 == b.(cache := b1.cache)
    ensures Extends(b, c) <==> Extends(b1, c)
  {
  }

  /** Up to 2^32 allocations there is nothing to refuse. */
  lemma NothingToRefuse(b: Balancer, ev: Event)
    requires MarksOk(b) && PickStep(b, ev).lb.issued <= WIDTH
    ensures RefusesAt(b, ev)
  {
    var b1, e, chose := PickIs(b, ev);
    if chose && e !in b.epID {
      ReserveKeeps(b);
    }
  }

  /** A nonzero mark denotes the chosen endpoint, in epID and in the kernel alike. */
  lemma PickIssues(b: Balancer, ev: Event) returns (e: Endpoint)
    requires LeadsHome(b) && RefusesAt(b, ev) && PickStep(b, ev).mark.Ok? && PickStep(b, ev).mark.value != 0
    ensures var r, cur := PickStep(b, ev), Current(b, ev);
            && cur.Some? && r.position.Some? && r.position.value < |cur.value.endpoints|
            && e == cur.value.endpoints[r.position.value] && e == ChosenBy(b, ev)
            && e in r.lb.epID && r.lb.epID[e] == r.mark.value
            && r.mark.value in r.lb.eps && r.lb.eps[r.mark.value] == ElementOf(e)
  {
    var b1, e1, chose := PickIs(b, ev);
    e := e1;
    IdExtends(b1, e, ev.io);
  }

  // ---------------------------------------------------------------- the ids

  /** The id of allocation n, counted from 0. */
  function NthId(n: nat): nat {
    (n + 1) % 0x1_0000_0000
  }

  lemma NthIdSmall(n: nat)
    requires n < WIDTH - 1
    ensures NthId(n) == n + 1
  {
  }

  lemma NthIdNext(n: nat)
    ensures NthId(n + 1) == (NthId(n) + 1) % 0x1_0000_0000
  {
  }

  /** The next id is fresh and fit to be a mark exactly while fewer than 2^32 - 1 were allocated. */
  lemma FreshWhile(b: Balancer)
    requires MarksOk(b)
    ensures b.nextID != 0 && (forall n: nat :: n < b.issued ==> NthId(n) != b.nextID) <==> b.issued < WIDTH - 1
  {
    if b.issued < WIDTH - 1 {
      forall n: nat | n < b.issued ensures NthId(n) != b.nextID {
        NthIdSmall(n);
      }
    } else if b.issued > WIDTH - 1 {
      assert NthId(b.issued - WIDTH) == b.nextID;
    }
  }

  /** The allocation after 2^32 - 1 others yields mark 0, which the verdict callback takes for no endpoint. */
  lemma IdsWrap(b: Balancer, e: Endpoint)
    requires MarksOk(b) && b.issued == WIDTH - 1 && e !in b.epID
    ensures IdStep(b, e, KernelIO(true, Applied)).id == Ok(0)
  {
  }

  /**
   The one after that comes to the first id again. That mark keeps its meaning exactly if the kernel refuses,
   and then the new endpoint gets none; otherwise two endpoints share it and the kernel forgets the first.
   */
  lemma IdReissued(b: Balancer, e: Endpoint, f: Endpoint, io: KernelIO)
    requires MarksOk(b) && b.issued == WIDTH && f in b.epID && b.epID[f] == 1 && e !in b.epID
    ensures var r := IdStep(b, e, io);
            && (Refuses(b, e, io) <==> r.lb.eps[1] == ElementOf(f))
            && (Refuses(b, e, io) && ElementOf(e) != ElementOf(f) ==> r.id.Err? && r.lb == Reserved(b))
            && (io == KernelIO(true, Applied) ==>
                  r.id == Ok(1) && r.lb.epID[e] == r.lb.epID[f] && r.lb.eps[r.lb.epID[f]] == ElementOf(e))
  {
  }

  // ---------------------------------------------------------------- whole runs

  function Run(evs: seq<Event>): Balancer {
    if evs == [] then Start() else PickStep(Run(evs[..|evs| - 1]), evs[|evs| - 1]).lb
  }

  lemma {:induction false} RunMarks(evs: seq<Event>)
    ensures MarksOk(Run(evs))
  {
    if evs != [] {
      RunMarks(evs[..|evs| - 1]);
      PickKeepsMarks(Run(evs[..|evs| - 1]), evs[|evs| - 1]);
    }
  }

  /** In every step of the run the kernel refuses what clashes. */
  ghost predicate KernelRefuses(evs: seq<Event>) {
    forall k :: 0 <= k < |evs| ==> RefusesAt(Run(evs[..k]), evs[k])
  }

  lemma RefusesBefore(evs: seq<Event>, n: nat)
    requires KernelRefuses(evs) && n <= |evs|
    ensures KernelRefuses(evs[..n])
  {
    forall k | 0 <= k < n ensures RefusesAt(Run(evs[..n][..k]), evs[..n][k]) {
      assert evs[..n][..k] == evs[..k];
    }
  }

  lemma RefusesLonger(evs: seq<Event>)
    requires evs != [] && KernelRefuses(evs[..|evs| - 1])
    requires RefusesAt(Run(evs[..|evs| - 1]), evs[|evs| - 1])
    ensures KernelRefuses(evs)
  {
    var init := evs[..|evs| - 1];
    forall k | 0 <= k < |evs| ensures RefusesAt(Run(evs[..k]), evs[k]) {
      if k < |init| {
        assert init[..k] == evs[..k] && init[k] == evs[k];
      }
    }
  }

  lemma {:induction false} RunExtends(evs: seq<Event>, i: nat)
    requires i <= |evs| && KernelRefuses(evs)
    ensures LeadsHome(Run(evs)) && Extends(Run(evs[..i]), Run(evs))
  {
    if evs != [] {
      var n := |evs| - 1;
      RefusesBefore(evs, n);
      RunExtends(evs[..n], if i <= n then i else n);
      PickExtends(Run(evs[..n]), evs[n]);
      assert i <= n ==> evs[..n][..i] == evs[..i];
      assert i == |evs| ==> evs[..i] == evs;
    }
  }

  /** In runs of up to 2^32 allocations it may overwrite what it likes. */
  lemma {:induction false} FewAllocations(evs: seq<Event>)
    requires Run(evs).issued <= WIDTH
    ensures KernelRefuses(evs)
  {
    if evs != [] {
      var n := |evs| - 1;
      RunMarks(evs[..n]);
      PickKeepsMarks(Run(evs[..n]), evs[n]);
      FewAllocations(evs[..n]);
      NothingToRefuse(Run(evs[..n]), evs[n]);
      RefusesLonger(evs);
    }
  }

  /**
   A mark issued by any pick of any run still leads to the endpoint it was issued for at every later moment,
   however many ids were handed out and reissued.
   */
  lemma MarkStable(evs: seq<Event>, i: nat) returns (e: Endpoint)
    requires i < |evs| && KernelRefuses(evs)
    requires PickStep(Run(evs[..i]), evs[i]).mark.Ok? && PickStep(Run(evs[..i]), evs[i]).mark.value != 0
    ensures var m := PickStep(Run(evs[..i]), evs[i]).mark.value;
            && m in Run(evs).eps && Run(evs).eps[m] == Target(e.addr, e.port % 0x1_0000)
            && e in Run(evs).epID && Run(evs).epID[e] == m
    ensures Current(Run(evs[..i]), evs[i]).Some? && e in Current(Run(evs[..i]), evs[i]).value.endpoints
    ensures e == ChosenBy(Run(evs[..i]), evs[i])
  {
    RefusesBefore(evs, i);
    RunExtends(evs[..i], i);
    assert evs[..i + 1][..i] == evs[..i];
    RunExtends(evs, i + 1);
    e := PickIssues(Run(evs[..i]), evs[i]);
    ElementIs(e);
  }

  // ---------------------------------------------------------------- how long marks are stable

  predicate Issues(evs: seq<Event>, i: nat) {
    i < |evs| && PickStep(Run(evs[..i]), evs[i]).mark.Ok? && PickStep(Run(evs[..i]), evs[i]).mark.value != 0
  }

  /** At the end of the run the kernel still translates the mark of pick i to the endpoint pick i chose. */
  predicate StillDenotes(evs: seq<Event>, i: nat)
    requires Issues(evs, i)
  {
    var m := PickStep(Run(evs[..i]), evs[i]).mark.value;
    var e := ChosenBy(Run(evs[..i]), evs[i]);
    m in Run(evs).eps && Run(evs).eps[m] == Target(e.addr, e.port % 0x1_0000)
  }

  ghost predicate MarksStable(evs: seq<Event>) {
    forall i :: 0 <= i < |evs| && Issues(evs, i) ==> StillDenotes(evs, i)
  }

  /** With a kernel that refuses, marks keep their meaning in every run. */
  lemma StableIfRefused(evs: seq<Event>)
    requires KernelRefuses(evs)
    ensures MarksStable(evs)
  {
    forall i | 0 <= i < |evs| && Issues(evs, i) ensures StillDenotes(evs, i) {
      var e := MarkStable(evs, i);
    }
  }

  /** The k-th of any number of addresses; what their texts are makes no difference. */
  function AddressText(k: nat): (s: string)
    ensures |s| == k
  {
    seq(k, i => 'a')
  }

  function Churner(k: nat): Endpoint {
    Endpoint(AddressText(k), 80)
  }

  /** A service whose only endpoint is a new one at every packet, asked about after each answer has expired. */
  function ChurnEvent(f: Flow, k: nat): Event {
    Event(f, 100 * k, 100 * k, Ok(Answer([AddressText(k)], 80, 1, "")), KernelIO(true, Applied))
  }

  function Churn(f: Flow, n: nat): seq<Event> {
    if n == 0 then [] else Churn(f, n - 1) + [ChurnEvent(f, n - 1)]
  }

  lemma ChurnersDiffer(j: nat, k: nat)
    ensures Churner(j) == Churner(k) <==> j == k
    ensures ElementOf(Churner(j)) == Target(Churner(k).addr, Churner(k).port % 0x1_0000) <==> j == k
  {
    ElementIs(Churner(j));
    assert |Churner(j).addr| == j && |Churner(k).addr| == k;
  }

  /** After n churning picks: as many ids, no later churner known, the cache expired, and who holds mark 1. */
  ghost predicate Churned(f: Flow, b: Balancer, n: nat) {
    && b.issued == n && b.nextID == NthId(n)
    && (forall k: nat :: k >= n ==> Churner(k) !in b.epID)
    && (Key(f) in b.cache ==> b.cache[Key(f)].expiry < 100 * n)
    && (n > 0 ==> 1 in b.eps && exists k: nat :: HoldsFirst(b, n, k))
  }

  ghost predicate HoldsFirst(b: Balancer, n: nat, k: nat) {
    k < n && 1 in b.eps && b.eps[1] == ElementOf(Churner(k)) && (n > WIDTH ==> k >= WIDTH)
  }

  /** A pick that fetches one endpoint, a new one, and gets it into the kernel. */
  lemma FetchOne(b: Balancer, ev: Event, e: Endpoint)
    requires Stale(b, Key(ev.flow), ev.now) && Answered(ev.reply) && EndpointsOf(ev.reply.value) == [e]
    requires e !in b.epID && ev.io == KernelIO(true, Applied) && ev.reply.value.ttl == 1
    ensures var r := PickStep(b, ev);
            && r.mark == Ok(b.nextID) && r.lb.issued == b.issued + 1 && r.lb.nextID == (b.nextID + 1) % 0x1_0000_0000
            && r.lb.epID == b.epID[e := b.nextID] && r.lb.eps == b.eps[b.nextID := ElementOf(e)]
            && Key(ev.flow) in r.lb.cache && r.lb.cache[Key(ev.flow)].expiry == ev.later + 1
            && ChosenBy(b, ev) == e
  {
    var ent := Current(b, ev).value;
    assert ent.endpoints == [e] && ent.rr % 1 == 0;
  }

  lemma ChurnStep(f: Flow, b: Balancer, n: nat)
    requires Churned(f, b, n)
    ensures var r := PickStep(b, ChurnEvent(f, n));
            && r.mark == Ok(NthId(n)) && r.lb.issued == n + 1 && r.lb.nextID == NthId(n + 1)
            && r.lb.epID == b.epID[Churner(n) := NthId(n)] && r.lb.eps == b.eps[NthId(n) := ElementOf(Churner(n))]
            && Key(f) in r.lb.cache && r.lb.cache[Key(f)].expiry == 100 * n + 1
            && ChosenBy(b, ChurnEvent(f, n)) == Churner(n)
  {
    var ev := ChurnEvent(f, n);
    assert EndpointsOf(ev.reply.value) == [Churner(n)];
    NthIdNext(n);
    FetchOne(b, ev, Churner(n));
  }

  lemma ChurnKeeps(f: Flow, b: Balancer, c: Balancer, n: nat)
    requires Churned(f, b, n) && c.issued == n + 1 && c.nextID == NthId(n + 1)
    requires c.epID == b.epID[Churner(n) := NthId(n)] && c.eps == b.eps[NthId(n) := ElementOf(Churner(n))]
    requires Key(f) in c.cache && c.cache[Key(f)].expiry == 100 * n + 1
    ensures Churned(f, c, n + 1)
  {
    forall k: nat | k >= n + 1 ensures Churner(k) !in c.epID {
      ChurnersDiffer(n, k);
    }
    if NthId(n) == 1 {
      assert n == 0 || n >= WIDTH;
      assert HoldsFirst(c, n + 1, n);
    } else {
      var k: nat :| HoldsFirst(b, n, k);
      assert n != WIDTH;
      assert HoldsFirst(c, n + 1, k);
    }
  }

  lemma {:induction false} ChurnRuns(f: Flow, n: nat)
    ensures |Churn(f, n)| == n && Churned(f, Run(Churn(f, n)), n)
  {
    if n > 0 {
      ChurnRuns(f, n - 1);
      assert Churn(f, n)[..n - 1] == Churn(f, n - 1) && Churn(f, n)[n - 1] == ChurnEvent(f, n - 1);
      ChurnStep(f, Run(Churn(f, n - 1)), n - 1);
      ChurnKeeps(f, Run(Churn(f, n - 1)), Run(Churn(f, n)), n - 1);
    }
  }

  lemma {:induction false} ChurnFirst(f: Flow, n: nat)
    requires n > 0
    ensures |Churn(f, n)| == n && Churn(f, n)[0] == ChurnEvent(f, 0) && Churn(f, n)[..0] == []
  {
    if n > 1 {
      ChurnFirst(f, n - 1);
    }
  }

  /** If the kernel overwrites, a run past 2^32 allocations can leave the first mark to another endpoint. */
  lemma ChurnBreaks(f: Flow, n: nat)
    requires n > WIDTH
    ensures Run(Churn(f, n)).issued == n && !MarksStable(Churn(f, n))
  {
    var evs := Churn(f, n);
    ChurnRuns(f, n);
    ChurnFirst(f, n);
    ChurnStep(f, Start(), 0);
    assert Issues(evs, 0);
    var k: nat :| HoldsFirst(Run(evs), n, k);
    ChurnersDiffer(k, 0);
    assert !StillDenotes(evs, 0);
  }

  /** Whatever the kernel does, marks keep their meaning in every run of n allocations exactly up to n = 2^32. */
  lemma MarksStableExactly(n: nat)
    ensures (forall evs :: Run(evs).issued == n ==> MarksStable(evs)) <==> n <= WIDTH
  {
    if n <= WIDTH {
      forall evs | Run(evs).issued == n ensures MarksStable(evs) {
        FewAllocations(evs);
        StableIfRefused(evs);
      }
    } else {
      ChurnBreaks(Flow("", 0, "tcp"), n);
    }
  }

  // ---------------------------------------------------------------- the cache

  predicate KnownProto(f: Flow) {
    f.proto == "tcp" || f.proto == "udp"
  }

  lemma KeysApart(f: Flow, g: Flow)
    requires KnownProto(f) && KnownProto(g)
    ensures Key(f) == Key(g) <==> f == g
  {
    KeyInjective(f, g);
  }

  /** A pick changes no other flow's entry, and a failed query changes nothing at all. */
  lemma OthersUntouched(b: Balancer, ev: Event, g: Flow)
    requires KnownProto(ev.flow) && KnownProto(g) && g != ev.flow
    ensures Cached(PickStep(b, ev).lb, Key(g)) == Cached(b, Key(g))
    ensures Stale(b, Key(ev.flow), ev.now) && !Answered(ev.reply) ==> PickStep(b, ev).lb == b
  {
    KeysApart(ev.flow, g);
  }

  /** What each flow was last told: the endpoints of its latest successful answer. */
  function Learned(known: map<Flow, seq<Endpoint>>, b: Balancer, ev: Event): map<Flow, seq<Endpoint>> {
    if Stale(b, Key(ev.flow), ev.now) && Answered(ev.reply) then known[ev.flow := EndpointsOf(ev.reply.value)]
    else known
  }

  /** The cache holds, under each flow's key, the latest successful answer for that flow. */
  ghost predicate Coherent(b: Balancer, known: map<Flow, seq<Endpoint>>) {
    forall f :: KnownProto(f) ==>
      (Key(f) in b.cache <==> f in known) && (f in known ==> b.cache[Key(f)].endpoints == known[f])
  }

  lemma CacheStep(b: Balancer, ev: Event)
    ensures var r, cur := PickStep(b, ev), Current(b, ev);
            r.lb.cache == if cur.None? then b.cache
                          else b.cache[Key(ev.flow) := cur.value.(rr := r.lb.cache[Key(ev.flow)].rr)]
  {
    var b1, e, chose := PickIs(b, ev);
    if chose {
      assert IdStep(b1, e, ev.io).lb.cache == b1.cache;
    }
  }

  lemma CoherentStep(b: Balancer, known: map<Flow, seq<Endpoint>>, ev: Event)
    requires Coherent(b, known) && KnownProto(ev.flow)
    ensures Coherent(PickStep(b, ev).lb, Learned(known, b, ev))
    ensures Current(b, ev).Some? ==>
              ev.flow in Learned(known, b, ev) && Current(b, ev).value.endpoints == Learned(known, b, ev)[ev.flow]
  {
    CacheStep(b, ev);
    var b', known' := PickStep(b, ev).lb, Learned(known, b, ev);
    forall f | KnownProto(f)
      ensures (Key(f) in b'.cache <==> f in known') && (f in known' ==> b'.cache[Key(f)].endpoints == known'[f])
    {
      KeysApart(f, ev.flow);
    }
  }

  // ---------------------------------------------------------------- round robin

  /** The positions the picks of flow f choose in a run from b. */
  function Choices(b: Balancer, evs: seq<Event>, f: Flow): seq<nat>
    decreases evs
  {
    if evs == [] then
      []
    else
      var r := PickStep(b, evs[0]);
      (if evs[0].flow == f && r.position.Some? then [r.position.value] else []) + Choices(r.lb, evs[1..], f)
  }

  /** The cursor of flow f's entry. */
  function Cursor(b: Balancer, f: Flow): nat {
    if Key(f) in b.cache then b.cache[Key(f)].rr else 0
  }

  /** Flow f's list is L now, if it is known, and every answer for f says L again. */
  ghost predicate Unchanged(b: Balancer, evs: seq<Event>, f: Flow, L: seq<Endpoint>) {
    && (Key(f) in b.cache ==> b.cache[Key(f)].endpoints == L)
    && (forall i :: 0 <= i < |evs| && evs[i].flow == f && Answered(evs[i].reply) ==>
        EndpointsOf(evs[i].reply.value) == L)
    && (forall i :: 0 <= i < |evs| ==> KnownProto(evs[i].flow))
  }

  lemma RotateStep(b: Balancer, ev: Event, f: Flow, L: seq<Endpoint>)
    requires KnownProto(f) && KnownProto(ev.flow) && L != []
    requires Key(f) in b.cache ==> b.cache[Key(f)].endpoints == L
    requires ev.flow == f && Answered(ev.reply) ==> EndpointsOf(ev.reply.value) == L
    ensures var r := PickStep(b, ev);
            && (Key(f) in r.lb.cache ==> r.lb.cache[Key(f)].endpoints == L)
            && (if ev.flow == f && r.position.Some?
                then r.position.value == Cursor(b, f) % |L| && Cursor(r.lb, f) == Cursor(b, f) + 1
                else Cursor(r.lb, f) == Cursor(b, f))
  {
    KeysApart(f, ev.flow);
    CacheStep(b, ev);
  }

  /** The first pick of a run either takes the cursor's place and moves it on, or leaves it alone. */
  lemma ChoicesStep(b: Balancer, evs: seq<Event>, f: Flow, L: seq<Endpoint>)
    returns (next: Balancer, here: nat, tail: seq<nat>)
    requires KnownProto(f) && L != [] && Unchanged(b, evs, f, L) && evs != []
    ensures Unchanged(next, evs[1..], f, L) && here <= 1 && Cursor(next, f) == Cursor(b, f) + here
    ensures tail == Choices(next, evs[1..], f)
    ensures Choices(b, evs, f) == if here == 1 then [Cursor(b, f) % |L|] + tail else tail
  {
    var r := PickStep(b, evs[0]);
    RotateStep(b, evs[0], f, L);
    next, here := r.lb, if evs[0].flow == f && r.position.Some? then 1 else 0;
    tail := Choices(next, evs[1..], f);
  }

  /** s goes round n places, starting from cursor c. */
  ghost predicate Rotates(s: seq<nat>, c: nat, n: nat)
    requires n > 0
  {
    forall i :: 0 <= i < |s| ==> s[i] == (c + i) % n
  }

  lemma RotatesCons(s: seq<nat>, c: nat, n: nat)
    requires n > 0 && Rotates(s, c + 1, n)
    ensures Rotates([c % n] + s, c, n)
  {
    var t := [c % n] + s;
    forall i | 0 <= i < |t| ensures t[i] == (c + i) % n {
      if i > 0 {
        assert t[i] == s[i - 1] && c + 1 + (i - 1) == c + i;
      }
    }
  }

  lemma RotatesMore(s: seq<nat>, tail: seq<nat>, c: nat, next: nat, here: nat, n: nat)
    requires n > 0 && here <= 1 && next == c + here && Rotates(tail, next, n)
    requires s == if here == 1 then [c % n] + tail else tail
    ensures Rotates(s, c, n)
  {
    if here == 1 {
      RotatesCons(tail, c, n);
    }
  }

  /**
   Picks of a flow whose list stays L go round L, wherever other flows' picks, refreshes
   and failures fall between them.
   */
  lemma {:induction false} RoundRobin(b: Balancer, evs: seq<Event>, f: Flow, L: seq<Endpoint>)
    requires KnownProto(f) && L != [] && Unchanged(b, evs, f, L)
    ensures Rotates(Choices(b, evs, f), Cursor(b, f), |L|)
    decreases evs
  {
    if evs == [] {
      assert |Choices(b, evs, f)| == 0;
    } else {
      var next, here, tail := ChoicesStep(b, evs, f, L);
      RoundRobin(next, evs[1..], f, L);
      RotatesMore(Choices(b, evs, f), tail, Cursor(b, f), Cursor(next, f), here, |L|);
    }
  }

  function Count(s: seq<nat>, x: nat): nat {
    if s == [] then 0 else (if s[0] == x then 1 else 0) + Count(s[1..], x)
  }

  lemma {:induction false} CountSplit(s: seq<nat>, t: seq<nat>, x: nat)
    ensures Count(s + t, x) == Count(s, x) + Count(t, x)
  {
    if s == [] {
      assert s + t == t;
    } else {
      assert (s + t)[1..] == s[1..] + t;
      CountSplit(s[1..], t, x);
    }
  }

  /** Values in pairwise different places are counted once if they occur. */
  lemma {:induction false} CountOnce(s: seq<nat>, x: nat)
    requires forall i, j :: 0 <= i < j < |s| ==> s[i] != s[j]
    ensures Count(s, x) == if x in s then 1 else 0
  {
    if s != [] {
      CountOnce(s[1..], x);
      assert x in s <==> x == s[0] || x in s[1..];
      assert forall j :: 0 <= j < |s[1..]| ==> s[1..][j] == s[j + 1];
    }
  }

  lemma ModShift(c: nat, i: nat, n: nat)
    requires 0 < n
    ensures (c + n + i) % n == (c + i) % n
  {
    var q, m := (c + i) / n, (c + i) % n;
    assert c + n + i == n * (q + 1) + m;
    ModUnique(c + n + i, n, q + 1, m);
  }

  /** Where the i-th of n places after c lies. */
  lemma TurnPlace(c: nat, n: nat, i: nat)
    requires i < n
    ensures var m := c % n; (c + i) % n == if m + i < n then m + i else m + i - n
  {
    var m, q := c % n, c / n;
    assert c == n * q + m;
    if m + i < n {
      ModUnique(c + i, n, q, m + i);
    } else {
      assert n * (q + 1) == n * q + n;
      ModUnique(c + i, n, q + 1, m + i - n);
    }
  }

  lemma TurnOnce(s: seq<nat>, m: nat, n: nat, x: nat)
    requires x < n && m < n && |s| == n && forall i :: 0 <= i < n ==> s[i] == if m + i < n then m + i else m + i - n
    ensures Count(s, x) == 1
  {
    var at := if x >= m then x - m else x - m + n;
    assert s[at] == x;
    CountOnce(s, x);
  }

  /** A full turn meets position x exactly once. */
  lemma FullTurn(s: seq<nat>, c: nat, n: nat, x: nat)
    requires x < n && |s| == n && Rotates(s, c, n)
    ensures Count(s, x) == 1
  {
    forall i | 0 <= i < n ensures s[i] == if c % n + i < n then c % n + i else c % n + i - n {
      TurnPlace(c, n, i);
    }
    TurnOnce(s, c % n, n, x);
  }

  lemma {:induction false} Turns(s: seq<nat>, c: nat, n: nat, k: nat, x: nat)
    requires x < n && |s| == n * k && Rotates(s, c, n)
    ensures Count(s, x) == k
  {
    if k > 0 {
      assert n * k == n + n * (k - 1);
      var head, tail := s[..n], s[n..];
      assert s == head + tail;
      FullTurn(head, c, n, x);
      forall i | 0 <= i < |tail| ensures tail[i] == (c + i) % n {
        ModShift(c, i, n);
      }
      Turns(tail, c, n, k - 1, x);
      CountSplit(head, tail, x);
    }
  }

  /** n * k picks over an unchanged list of n endpoints choose every position exactly k times. */
  lemma FairShare(b: Balancer, evs: seq<Event>, f: Flow, L: seq<Endpoint>, k: nat, x: nat)
    requires KnownProto(f) && Unchanged(b, evs, f, L) && x < |L| && |Choices(b, evs, f)| == |L| * k
    ensures Count(Choices(b, evs, f), x) == k
  {
    RoundRobin(b, evs, f, L);
    Turns(Choices(b, evs, f), Cursor(b, f), |L|, k, x);
  }

  // ---------------------------------------------------------------- the balancer in place

  class SvcLB {
    var epID: map<Endpoint, nat>
    var nextID: nat
    var cache: map<string, CacheEntry>
    var eps: map<nat, Target>
    ghost var issued: nat

    ghost function View(): Balancer
      reads this
    {
      Balancer(epID, nextID, cache, eps, issued)
    }

    constructor ()
      ensures View() == Start()
    {
      epID, nextID, cache, eps := map[], 1, map[], map[];
      issued := 0;
    }

    /** idFor: the endpoint's id, allocated and added to the kernel's map on first use. */
    method IdFor(e: Endpoint, io: KernelIO) returns (r: Result<nat>)
      modifies this
      ensures IdResult(View(), r) == IdStep(old(View()), e, io)
    {
      if e in epID {
        return Ok(epID[e]);
      }
      var id := nextID;
      nextID := (nextID + 1) % 0x1_0000_0000;
      issued := issued + 1;
      if !io.added {
        return Err;
      }
      if io.commit != Refused {
        eps := eps[id := ElementOf(e)];
      }
      if io.commit != Applied {
        return Err;
      }
      epID := epID[e := id];
      r := Ok(id);
    }

    /** reconcileEndpoints: the addresses whose connections are reset, those of endpoints that are gone. */
    method ReconcileEndpoints(prev: Option<CacheEntry>, now: seq<Endpoint>) returns (reset: seq<string>)
      ensures forall a :: a in reset <==>
          prev.Some? && exists e :: e in prev.value.endpoints && e !in now && e.addr == a
    {
      reset := [];
      if prev.Some? {
        var nowSet := set e | e in now;
        var before := prev.value.endpoints;
        for i := 0 to |before|
          invariant forall a :: a in reset <==> exists e :: e in before[..i] && e !in now && e.addr == a
        {
          assert before[..i + 1] == before[..i] + [before[i]];
          if before[i] !in nowSet {
            reset := reset + [before[i].addr];
          }
        }
        assert before[..|before|] == before;
      }
    }

    /** The endpoint list of an answer. */
    method ReadAnswer(a: Answer) returns (es: seq<Endpoint>)
      ensures es == EndpointsOf(a)
    {
      es := [];
      for i := 0 to |a.endpoints|
        invariant |es| == i && forall j :: 0 <= j < i ==> es[j] == Endpoint(a.endpoints[j], a.targetPort)
      {
        es := es + [Endpoint(a.endpoints[i], a.targetPort)];
      }
    }

    /** The part of pick that asks the host and replaces the entry. */
    method Fetch(key: string, a: Answer, later: int) returns (reset: seq<string>)
      modifies this`cache
      ensures cache == old(cache)[key := Fetched(Cached(old(View()), key), a, later)]
      ensures forall x :: x in reset <==>
                key in old(cache) && exists e :: e in old(cache)[key].endpoints && e !in EndpointsOf(a) && e.addr == x
    {
      var found := if key in cache then Some(cache[key]) else None;
      var es := ReadAnswer(a);
      reset := ReconcileEndpoints(found, es);
      var rr := if found.Some? then found.value.rr else 0;
      var ttl := if a.ttl <= 0 then CACHE_TTL else a.ttl;
      cache := cache[key := CacheEntry(es, later + ttl, rr)];
    }

    /** The part of pick after the entry is current. */
    method Choose(key: string, io: KernelIO) returns (mark: Result<nat>)
      requires key in cache
      modifies this
      ensures View() == ChooseStep(old(View()), key, io).lb && mark == ChooseStep(old(View()), key, io).mark
    {
      var ent := cache[key];
      if ent.endpoints == [] {
        return Ok(0);
      }
      var e := ent.endpoints[ent.rr % |ent.endpoints|];
      cache := cache[key := ent.(rr := ent.rr + 1)];
      mark := IdFor(e, io);
    }

    /** pick: resolve the flow through the cache and return the mark of the next endpoint. */
    method Pick(ev: Event) returns (mark: Result<nat>)
      modifies this
      ensures View() == PickStep(old(View()), ev).lb && mark == PickStep(old(View()), ev).mark
    {
      var key := Key(ev.flow);
      if key !in cache || ev.now > cache[key].expiry {
        if ev.reply.Err? || ev.reply.value.error != "" {
          return Err;
        }
        var _ := Fetch(key, ev.reply.value, ev.later);
      } else {
        assert cache[key := cache[key]] == cache;
      }
      mark := Choose(key, ev.io);
    }
  }
}
