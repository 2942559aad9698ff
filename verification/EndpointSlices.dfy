/** The host's half: answering a service query from the cached services and endpoint slices. */
module EndpointSlices {
  import opened Wrappers
  import opened FlowKey
  import opened ServiceLB

  datatype SlicePort = SlicePort(name: Option<string>, protocol: Option<string>, port: Option<int>)

  datatype SliceEndpoint = SliceEndpoint(addresses: seq<string>, ready: Option<bool>)

  /** A slice of some service: the lister hands over those of the service asked for. */
  datatype Slice = Slice(service: string, addressType: string, ports: seq<SlicePort>, endpoints: seq<SliceEndpoint>)

  datatype ServicePort = ServicePort(name: string, port: int, protocol: string)

  datatype Service = Service(name: string, clusterIP: string, clusterIPs: seq<string>, ports: seq<ServicePort>)

  /** A static pod behind a bootstrap address. */
  datatype Bootstrap = Bootstrap(ip: string, stopping: bool)

  datatype Host = Host(bootstraps: map<string, Bootstrap>, connected: bool, synced: bool,
                       services: seq<Service>, slices: seq<Slice>)

  datatype Query = Query(vip: string, port: int, proto: string)

  function Upper(c: char): char {
    if 'a' <= c <= 'z' then (c as int - 32) as char else c
  }

  function ToUpper(s: string): (u: string)
    ensures |u| == |s| && forall i :: 0 <= i < |s| ==> u[i] == Upper(s[i])
  {
    seq(|s|, i requires 0 <= i < |s| => Upper(s[i]))
  }

  /** The protocol a query means, TCP by default. */
  function ProtoOf(q: Query): string {
    if q.proto == "" then "TCP" else ToUpper(q.proto)
  }

  const SMALL: string := "abcdefghijklmnopqrstuvwxyz"
  const LARGE: string := "ABCDEFGHIJKLMNOPQRSTUVWXYZ"

  /** Small letters become large ones, and nothing else changes. */
  lemma UpperIs(c: char)
    ensures forall i :: 0 <= i < 26 && c == SMALL[i] ==> Upper(c) == LARGE[i]
    ensures c !in SMALL ==> Upper(c) == c
  {
    if 'a' <= c <= 'z' {
      assert SMALL[c as int - 'a' as int] == c;
    }
  }

  /** The guest's protocols are those of the services, and no protocol means TCP. */
  lemma ProtosAre(vip: string, port: int)
    ensures ProtoOf(Query(vip, port, "")) == "TCP" && ProtoOf(Query(vip, port, "tcp")) == "TCP"
    ensures ProtoOf(Query(vip, port, "udp")) == "UDP"
  {
  }

  // ---------------------------------------------------------------- one slice

  predicate PortMatches(p: SlicePort, name: string, proto: string) {
    && (if p.name.Some? then p.name.value == name else name == "")
    && (p.protocol.Some? ==> ToUpper(p.protocol.value) == ToUpper(proto))
  }

  /** k is the first entry of ps with that name and protocol. */
  predicate FirstMatch(ps: seq<SlicePort>, name: string, proto: string, k: nat) {
    k < |ps| && PortMatches(ps[k], name, proto) && forall j :: 0 <= j < k ==> !PortMatches(ps[j], name, proto)
  }

  /** The number of the first matching port, 0 without one. */
  function SlicePortOf(ps: seq<SlicePort>, name: string, proto: string): int {
    if ps == [] then
      0
    else if PortMatches(ps[0], name, proto) then
      if ps[0].port.Some? then ps[0].port.value else 0
    else
      SlicePortOf(ps[1..], name, proto)
  }

  lemma {:induction false} FirstMatchPort(ps: seq<SlicePort>, name: string, proto: string, k: nat)
    requires FirstMatch(ps, name, proto, k)
    ensures SlicePortOf(ps, name, proto) == if ps[k].port.Some? then ps[k].port.value else 0
  {
    if k > 0 {
      assert FirstMatch(ps[1..], name, proto, k - 1);
      FirstMatchPort(ps[1..], name, proto, k - 1);
    }
  }

  lemma {:induction false} NoMatchPort(ps: seq<SlicePort>, name: string, proto: string)
    requires forall j :: 0 <= j < |ps| ==> !PortMatches(ps[j], name, proto)
    ensures SlicePortOf(ps, name, proto) == 0
  {
    if ps != [] {
      NoMatchPort(ps[1..], name, proto);
    }
  }

  /** Slices of IPv6 addresses with a number for the port asked for. */
  predicate Usable(s: Slice, name: string, proto: string) {
    s.addressType == "IPv6" && SlicePortOf(s.ports, name, proto) != 0
  }

  /** Not known to be unready, and with an address. */
  predicate Serving(e: SliceEndpoint) {
    e.ready != Some(false) && e.addresses != []
  }

  function Addresses(es: seq<SliceEndpoint>): seq<string> {
    if es == [] then
      []
    else
      var last := es[|es| - 1];
      Addresses(es[..|es| - 1]) + (if Serving(last) then [last.addresses[0]] else [])
  }

  function AllAddresses(ss: seq<Slice>, name: string, proto: string): seq<string> {
    if ss == [] then
      []
    else
      var last := ss[|ss| - 1];
      AllAddresses(ss[..|ss| - 1], name, proto) + (if Usable(last, name, proto) then Addresses(last.endpoints) else [])
  }

  /** The last usable slice's port wins. */
  function TargetPort(ss: seq<Slice>, name: string, proto: string): int {
    if ss == [] then
      0
    else if Usable(ss[|ss| - 1], name, proto) then
      SlicePortOf(ss[|ss| - 1].ports, name, proto)
    else
      TargetPort(ss[..|ss| - 1], name, proto)
  }

  /** The service's slices, in the lister's order. */
  function SlicesOf(ss: seq<Slice>, service: string): seq<Slice> {
    if ss == [] then
      []
    else
      SlicesOf(ss[..|ss| - 1], service) + (if ss[|ss| - 1].service == service then [ss[|ss| - 1]] else [])
  }

  // ---------------------------------------------------------------- what the lists mean

  lemma {:induction false} InAddresses(es: seq<SliceEndpoint>, a: string)
    ensures a in Addresses(es) <==> exists e :: e in es && Serving(e) && e.addresses[0] == a
  {
    if es != [] {
      var init, last := es[..|es| - 1], es[|es| - 1];
      InAddresses(init, a);
      assert es == init + [last];
    }
  }

  /** s offers address a for the port asked for. */
  ghost predicate Offers(s: Slice, name: string, proto: string, a: string) {
    Usable(s, name, proto) && exists e :: e in s.endpoints && Serving(e) && e.addresses[0] == a
  }

  /** The list holds exactly the serving addresses of the usable slices. */
  lemma {:induction false} InAllAddresses(ss: seq<Slice>, name: string, proto: string, a: string)
    ensures a in AllAddresses(ss, name, proto) <==> exists s :: s in ss && Offers(s, name, proto, a)
  {
    if ss != [] {
      var init, last := ss[..|ss| - 1], ss[|ss| - 1];
      InAllAddresses(init, name, proto, a);
      InAddresses(last.endpoints, a);
      assert Offers(last, name, proto, a) <==> Usable(last, name, proto) && a in Addresses(last.endpoints);
      assert forall s :: s in ss <==> s in init || s == last;
    }
  }

  /** There is no port exactly when no slice is usable, and then no address either. */
  lemma {:induction false} PortFound(ss: seq<Slice>, name: string, proto: string)
    ensures TargetPort(ss, name, proto) == 0 <==> forall s :: s in ss ==> !Usable(s, name, proto)
    ensures TargetPort(ss, name, proto) != 0 ==>
              exists s :: s in ss && Usable(s, name, proto)
                && SlicePortOf(s.ports, name, proto) == TargetPort(ss, name, proto)
  {
    if ss != [] {
      var init, last := ss[..|ss| - 1], ss[|ss| - 1];
      PortFound(init, name, proto);
      assert ss == init + [last];
    }
  }

  lemma {:induction false} InSlicesOf(ss: seq<Slice>, service: string, s: Slice)
    ensures s in SlicesOf(ss, service) <==> s in ss && s.service == service
  {
    if ss != [] {
      InSlicesOf(ss[..|ss| - 1], service, s);
      assert ss == ss[..|ss| - 1] + [ss[|ss| - 1]];
    }
  }

  /** And keeps them in the lister's order. */
  lemma {:induction false} SlicesInOrder(ss: seq<Slice>, service: string, i: nat, j: nat) returns (a: nat, b: nat)
    requires i < j < |SlicesOf(ss, service)|
    ensures a < b < |ss| && ss[a] == SlicesOf(ss, service)[i] && ss[b] == SlicesOf(ss, service)[j]
  {
    var n := |ss| - 1;
    if j < |SlicesOf(ss[..n], service)| {
      a, b := SlicesInOrder(ss[..n], service, i, j);
    } else {
      InSlicesOf(ss[..n], service, SlicesOf(ss[..n], service)[i]);
      a, b :| 0 <= a < n && ss[..n][a] == SlicesOf(ss[..n], service)[i] && b == n;
    }
  }

  // ---------------------------------------------------------------- the service asked for

  predicate ClusterIPMatches(s: Service, vip: string) {
    s.clusterIP == vip || vip in s.clusterIPs
  }

  predicate ServicePortMatches(p: ServicePort, q: Query) {
    p.port == q.port && (p.protocol == ProtoOf(q) || p.protocol == "")
  }

  function FindPort(ps: seq<ServicePort>, q: Query): Option<string> {
    if ps == [] then None else if ServicePortMatches(ps[0], q) then Some(ps[0].name) else FindPort(ps[1..], q)
  }

  lemma {:induction false} FindPortMeans(ps: seq<ServicePort>, q: Query)
    ensures FindPort(ps, q).Some? <==> exists p :: p in ps && ServicePortMatches(p, q)
    ensures FindPort(ps, q).Some? ==> exists p :: p in ps && ServicePortMatches(p, q) && p.name == FindPort(ps, q).value
  {
    if ps != [] {
      FindPortMeans(ps[1..], q);
      assert ps == [ps[0]] + ps[1..];
    }
  }

  function FindService(ss: seq<Service>, vip: string): Option<Service> {
    if ss == [] then None else if ClusterIPMatches(ss[0], vip) then Some(ss[0]) else FindService(ss[1..], vip)
  }

  lemma {:induction false} FindServiceMeans(ss: seq<Service>, vip: string)
    ensures FindService(ss, vip).Some? <==> exists s :: s in ss && ClusterIPMatches(s, vip)
    ensures FindService(ss, vip).Some? ==>
              FindService(ss, vip).value in ss && ClusterIPMatches(FindService(ss, vip).value, vip)
  {
    if ss != [] {
      FindServiceMeans(ss[1..], vip);
      assert ss == [ss[0]] + ss[1..];
    }
  }

  function Failure(why: string, ttl: int): Answer
    requires why != ""
  {
    Answer([], 0, ttl, why)
  }

  /** resolveService: bootstrap addresses first, then the watch caches. */
  function Resolve(h: Host, q: Query): Answer {
    if q.vip != "" && q.vip in h.bootstraps then
      var b := h.bootstraps[q.vip];
      if b.ip == "" || b.stopping then Failure("bootstrap VIP backend not ready", 1) else Answer([b.ip], q.port, 5, "")
    else if !h.connected then
      Failure("apiserver not available yet", 1)
    else if !h.synced then
      Failure("watch caches not synced yet", 1)
    else
      match FindService(h.services, q.vip)
      case None => Failure("no service with ClusterIP " + q.vip, 0)
      case Some(svc) => ResolveIn(h, svc, q)
  }

  function ResolveIn(h: Host, svc: Service, q: Query): Answer {
    match FindPort(svc.ports, q)
    case None => Failure("no matching service port", 0)
    case Some(name) =>
      var ss, proto := SlicesOf(h.slices, svc.name), ProtoOf(q);
      if TargetPort(ss, name, proto) == 0 then
        Failure("no endpointslice yet", 1)
      else
        var eps := AllAddresses(ss, name, proto);
        Answer(eps, TargetPort(ss, name, proto), if eps == [] then 5 else 30, "")
  }

  // ---------------------------------------------------------------- the loops

  method SlicePortLoop(ps: seq<SlicePort>, name: string, proto: string) returns (port: int)
    ensures port == SlicePortOf(ps, name, proto)
  {
    port := 0;
    for i := 0 to |ps|
      invariant port == 0 && forall j :: 0 <= j < i ==> !PortMatches(ps[j], name, proto)
    {
      var have := if ps[i].name.Some? then ps[i].name.value else "";
      if have != name {
        continue;
      }
      if ps[i].protocol.Some? && ToUpper(ps[i].protocol.value) != ToUpper(proto) {
        continue;
      }
      if ps[i].port.Some? {
        port := ps[i].port.value;
      }
      FirstMatchPort(ps, name, proto, i);
      return;
    }
    NoMatchPort(ps, name, proto);
  }

  method AppendServing(eps: seq<string>, es: seq<SliceEndpoint>) returns (r: seq<string>)
    ensures r == eps + Addresses(es)
  {
    r := eps;
    for i := 0 to |es|
      invariant r == eps + Addresses(es[..i])
    {
      assert es[..i + 1][..i] == es[..i];
      if es[i].ready.Some? && !es[i].ready.value {
        continue;
      }
      if |es[i].addresses| > 0 {
        r := r + [es[i].addresses[0]];
      }
    }
    assert es[..|es|] == es;
  }

  /** endpointsFor: addresses and port of a service's slices, or no answer without a port. */
  method EndpointsFor(ss: seq<Slice>, name: string, proto: string) returns (ok: bool, eps: seq<string>, port: int)
    ensures ok <==> exists s :: s in ss && Usable(s, name, proto)
    ensures ok ==> port == TargetPort(ss, name, proto) && eps == AllAddresses(ss, name, proto)
  {
    eps, port := [], 0;
    for i := 0 to |ss|
      invariant port == TargetPort(ss[..i], name, proto) && eps == AllAddresses(ss[..i], name, proto)
    {
      assert ss[..i + 1][..i] == ss[..i];
      if ss[i].addressType != "IPv6" {
        continue;
      }
      var slicePort := SlicePortLoop(ss[i].ports, name, proto);
      if slicePort == 0 {
        continue;
      }
      port := slicePort;
      eps := AppendServing(eps, ss[i].endpoints);
    }
    assert ss[..|ss|] == ss;
    PortFound(ss, name, proto);
    ok := port != 0;
  }

  // ---------------------------------------------------------------- the promise

  /** e has the address of a serving endpoint of a usable IPv6 slice of the service behind f's address and port. */
  ghost predicate BackedBy(h: Host, f: Flow, e: Endpoint, svc: Service, p: ServicePort, s: Slice) {
    var q := Query(f.vip, f.port, f.proto);
    && svc in h.services && (svc.clusterIP == f.vip || f.vip in svc.clusterIPs)
    && p in svc.ports && p.port == f.port && (p.protocol == "" || p.protocol == ProtoOf(q))
    && s in h.slices && s.service == svc.name && Offers(s, p.name, ProtoOf(q), e.addr)
  }

  /** Two slices of one service give a port the same number, if they both have it. */
  ghost predicate Agree(s: Slice, t: Slice) {
    s.service == t.service ==>
      forall name, proto :: Usable(s, name, proto) && Usable(t, name, proto) ==>
        SlicePortOf(s.ports, name, proto) == SlicePortOf(t.ports, name, proto)
  }

  ghost predicate PortsAgree(h: Host) {
    forall s, t :: s in h.slices && t in h.slices ==> Agree(s, t)
  }

  ghost predicate HasPort(h: Host, f: Flow, e: Endpoint, p: ServicePort, s: Slice) {
    PortsAgree(h) ==> e.port == SlicePortOf(s.ports, p.name, ProtoOf(Query(f.vip, f.port, f.proto)))
  }

  predicate Bootstraps(h: Host, f: Flow) {
    f.vip != "" && f.vip in h.bootstraps
  }

  /**
   e serves f on host h: the running static pod of a bootstrap address, at the port asked for, or a backend of
   f's service, with that backend's port if slices agree on ports.
   */
  ghost predicate Serves(h: Host, f: Flow, e: Endpoint) {
    if Bootstraps(h, f) then
      e.addr != "" && h.bootstraps[f.vip] == Bootstrap(e.addr, false) && e.port == f.port
    else
      exists svc, p, s :: BackedBy(h, f, e, svc, p, s) && HasPort(h, f, e, p, s)
  }

  /** A successful answer names only what serves the flow. */
  lemma ResolveSound(h: Host, f: Flow, e: Endpoint)
    requires var a := Resolve(h, Query(f.vip, f.port, f.proto)); a.error == "" && e in EndpointsOf(a)
    ensures Serves(h, f, e)
  {
    if !Bootstraps(h, f) {
      var svc, p, s := FromCaches(h, f, e);
    }
  }

  lemma FromCaches(h: Host, f: Flow, e: Endpoint) returns (svc: Service, p: ServicePort, s: Slice)
    requires var a := Resolve(h, Query(f.vip, f.port, f.proto)); a.error == "" && e in EndpointsOf(a)
    requires !Bootstraps(h, f)
    ensures BackedBy(h, f, e, svc, p, s) && HasPort(h, f, e, p, s)
  {
    var q := Query(f.vip, f.port, f.proto);
    FindServiceMeans(h.services, f.vip);
    svc := FindService(h.services, f.vip).value;
    FindPortMeans(svc.ports, q);
    p :| p in svc.ports && ServicePortMatches(p, q) && p.name == FindPort(svc.ports, q).value;
    var ss := SlicesOf(h.slices, svc.name);
    InAllAddresses(ss, p.name, ProtoOf(q), e.addr);
    s :| s in ss && Offers(s, p.name, ProtoOf(q), e.addr);
    InSlicesOf(h.slices, svc.name, s);
    assert BackedBy(h, f, e, svc, p, s);
    PortFound(ss, p.name, ProtoOf(q));
    var t :| t in ss && Usable(t, p.name, ProtoOf(q)) && SlicePortOf(t.ports, p.name, ProtoOf(q)) == e.port;
    InSlicesOf(h.slices, svc.name, t);
    assert PortsAgree(h) ==> Agree(s, t);
  }

  /** And it names all of them: every serving address of a usable slice of the service found is offered. */
  lemma ResolveComplete(h: Host, q: Query, s: Slice, name: string, a: string)
    requires h.connected && h.synced && (q.vip == "" || q.vip !in h.bootstraps)
    requires FindService(h.services, q.vip).Some?
    requires FindPort(FindService(h.services, q.vip).value.ports, q) == Some(name)
    requires s in h.slices && s.service == FindService(h.services, q.vip).value.name && Offers(s, name, ProtoOf(q), a)
    ensures Resolve(h, q).error == "" && a in Resolve(h, q).endpoints
  {
    var svc := FindService(h.services, q.vip).value;
    var ss := SlicesOf(h.slices, svc.name);
    InSlicesOf(h.slices, svc.name, s);
    InAllAddresses(ss, name, ProtoOf(q), a);
    PortFound(ss, name, ProtoOf(q));
  }

  /** A bootstrap address answers with its static pod exactly while that runs, whatever the caches say. */
  lemma BootstrapAnswers(h: Host, f: Flow)
    requires f.vip != "" && f.vip in h.bootstraps
    ensures var a, b := Resolve(h, Query(f.vip, f.port, f.proto)), h.bootstraps[f.vip];
            && (a.error == "" <==> b.ip != "" && !b.stopping)
            && (a.error == "" ==> EndpointsOf(a) == [Endpoint(b.ip, f.port)] && a.ttl == 5)
            && (a.error != "" ==> a.endpoints == [] && a.targetPort == 0 && a.ttl == 1)
  {
  }

  /** Any other query is refused exactly if the caches are not there, or hold no such service, port or usable slice. */
  lemma RefusedExactly(h: Host, q: Query)
    requires q.vip == "" || q.vip !in h.bootstraps
    ensures Resolve(h, q).error != "" <==>
              || !h.connected || !h.synced
              || (forall s :: s in h.services ==> s.clusterIP != q.vip && q.vip !in s.clusterIPs)
              || (FindService(h.services, q.vip).Some? && NothingBehind(h, FindService(h.services, q.vip).value, q))
    ensures Resolve(h, q).error != "" ==> Resolve(h, q).endpoints == [] && Resolve(h, q).targetPort == 0
    ensures !h.connected || !h.synced ==> Resolve(h, q).ttl == 1
  {
    FindServiceMeans(h.services, q.vip);
    if FindService(h.services, q.vip).Some? {
      var svc := FindService(h.services, q.vip).value;
      FindPortMeans(svc.ports, q);
      if FindPort(svc.ports, q).Some? {
        var name := FindPort(svc.ports, q).value;
        PortFound(SlicesOf(h.slices, svc.name), name, ProtoOf(q));
        forall s ensures s in SlicesOf(h.slices, svc.name) <==> s in h.slices && s.service == svc.name {
          InSlicesOf(h.slices, svc.name, s);
        }
      }
    }
  }

  /** The service has no such port, or none of its slices is usable for it. */
  ghost predicate NothingBehind(h: Host, svc: Service, q: Query) {
    || (forall p :: p in svc.ports ==> p.port != q.port || (p.protocol != "" && p.protocol != ProtoOf(q)))
    || (FindPort(svc.ports, q).Some?
        && forall s :: s in h.slices && s.service == svc.name ==>
             !Usable(s, FindPort(svc.ports, q).value, ProtoOf(q)))
  }

  /** resolveService as it runs. */
  method ResolveService(h: Host, q: Query) returns (a: Answer)
    ensures a == Resolve(h, q)
  {
    if q.vip != "" && q.vip in h.bootstraps {
      var b := h.bootstraps[q.vip];
      if b.ip == "" || b.stopping {
        return Failure("bootstrap VIP backend not ready", 1);
      }
      return Answer([b.ip], q.port, 5, "");
    }
    if !h.connected {
      return Failure("apiserver not available yet", 1);
    }
    if !h.synced {
      return Failure("watch caches not synced yet", 1);
    }
    for i := 0 to |h.services|
      invariant FindService(h.services, q.vip) == FindService(h.services[i..], q.vip)
    {
      if ClusterIPMatches(h.services[i], q.vip) {
        a := AnswerFor(h, h.services[i], q);
        return;
      }
    }
    a := Failure("no service with ClusterIP " + q.vip, 0);
  }

  method AnswerFor(h: Host, svc: Service, q: Query) returns (a: Answer)
    ensures a == ResolveIn(h, svc, q)
  {
    for i := 0 to |svc.ports|
      invariant FindPort(svc.ports, q) == FindPort(svc.ports[i..], q)
    {
      if ServicePortMatches(svc.ports[i], q) {
        var ss := SlicesOf(h.slices, svc.name);
        var ok, eps, port := EndpointsFor(ss, svc.ports[i].name, ProtoOf(q));
        PortFound(ss, svc.ports[i].name, ProtoOf(q));
        if !ok {
          return Failure("no endpointslice yet", 1);
        }
        return Answer(eps, port, if |eps| == 0 then 5 else 30, "");
      }
    }
    a := Failure("no matching service port", 0);
  }
}
