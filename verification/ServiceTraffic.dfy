/** Guest and host together: where the packets of a whole run end up. */
module ServiceTraffic {
  import opened Wrappers
  import opened FlowKey
  import opened ServiceLB
  import opened PacketPath
  import opened EndpointSlices

  /** When the host is asked about a flow its answer is what it holds at that step. */
  ghost predicate Hosted(c: Config, steps: seq<Step>, hosts: seq<Host>) {
    |hosts| == |steps| && forall k, f :: 0 <= k < |steps| && AskedAt(c, steps, k, f) ==>
      steps[k].reply.value == Resolve(hosts[k], Query(f.vip, f.port, f.proto))
  }

  /**
   Every translated packet of every run goes to an endpoint that served the packet's own address and
   port, on the host as it stood when it was last asked about them before the packet's verdict.
   */
  lemma TrafficReachesBackends(c: Config, steps: seq<Step>, hosts: seq<Host>, i: nat)
    returns (e: Endpoint, n: nat, k: nat)
    requires Hosted(c, steps, hosts) && RefusingRun(c, steps)
    requires i < |After(c, steps).packets| && After(c, steps).packets[i].stage.Translated?
    ensures MarkedAt(c, steps, i, n) && k <= n
    ensures var p := After(c, steps).packets[i];
            && ParseFlow(p.bytes).Some? && p.stage.to == Target(e.addr, e.port % 0x1_0000)
            && var f := FlowOf(c, ParseFlow(p.bytes).value);
            && AskedAt(c, steps, k, f) && (forall j :: k < j <= n ==> !AskedAt(c, steps, j, f))
            && Serves(hosts[k], f, e)
  {
    PacketsServed(c, steps, i);
    n, k := ChosenFromLatest(c, steps, i);
    e := After(c, steps).packets[i].choice.value.endpoint;
    var f := After(c, steps).packets[i].choice.value.flow;
    ResolveSound(hosts[k], f, e);
  }
}
