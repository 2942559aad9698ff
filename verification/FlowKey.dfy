/** What the balancer reads of a packet, and the cache key it makes of it. */
module FlowKey {
  import opened Wrappers
  import opened Bytes

  datatype Flow = Flow(vip: string, port: nat, proto: string)

  // ---------------------------------------------------------------- the first packet's header

  const TCP: byte := 6
  const UDP: byte := 17

  /** Destination address, destination port and transport protocol, if the packet is IPv6 with TCP or UDP first. */
  datatype Header = Header(dst: seq<byte>, port: nat, proto: string)

  /** Network byte order. */
  function PortOf(high: byte, low: byte): (port: nat)
    ensures port < 0x1_0000
  {
    256 * (high as int) + low
  }

  function ParseFlow(pkt: seq<byte>): (r: Option<Header>)
    ensures r.Some? ==> r.value.proto == "tcp" || r.value.proto == "udp"
  {
    if |pkt| < 44 || pkt[0] / 16 != 6 then
      None
    else if pkt[6] == TCP then
      Some(Header(pkt[24..40], PortOf(pkt[42], pkt[43]), "tcp"))
    else if pkt[6] == UDP then
      Some(Header(pkt[24..40], PortOf(pkt[42], pkt[43]), "udp"))
    else
      None
  }

  /** An IPv6 packet as section 3 of RFC 8200 lays it out, the transport header (source port, destination port) next. */
  datatype Packet = Packet(version: byte, traffic: seq<byte>, length: seq<byte>, next: byte, hops: byte,
                           src: seq<byte>, dst: seq<byte>, sport: seq<byte>, dport: seq<byte>, rest: seq<byte>)

  predicate WellSized(p: Packet) {
    && p.version < 16 && |p.traffic| == 4 && p.traffic[0] < 16
    && |p.length| == 2 && |p.src| == 16 && |p.dst| == 16 && |p.sport| == 2 && |p.dport| == 2
  }

  function Serialize(p: Packet): seq<byte>
    requires WellSized(p)
  {
    [16 * p.version + p.traffic[0]] + p.traffic[1..] + p.length + [p.next, p.hops]
    + p.src + p.dst + p.sport + p.dport + p.rest
  }

  predicate Supported(p: Packet) {
    p.version == 6 && (p.next == 6 || p.next == 17)
  }

  lemma SerializeFields(p: Packet, s: seq<byte>)
    requires WellSized(p) && s == Serialize(p)
    ensures |s| == 44 + |p.rest| && s[0] == 16 * p.version + p.traffic[0] && s[6] == p.next
    ensures s[24..40] == p.dst && s[42] == p.dport[0] && s[43] == p.dport[1]
  {
  }

  /** The parser accepts exactly the TCP and UDP packets and finds their own fields. */
  lemma ParseFlowReads(p: Packet)
    requires WellSized(p)
    ensures ParseFlow(Serialize(p)) ==
              if Supported(p)
              then Some(Header(p.dst, 256 * (p.dport[0] as int) + p.dport[1], if p.next == 6 then "tcp" else "udp"))
              else None
  {
    SerializeFields(p, Serialize(p));
  }

  /** Whatever the parser accepts is such a packet. */
  lemma ParseFlowSound(pkt: seq<byte>) returns (p: Packet)
    requires ParseFlow(pkt).Some?
    ensures WellSized(p) && Supported(p) && Serialize(p) == pkt
  {
    p := Packet(pkt[0] / 16, [pkt[0] % 16] + pkt[1..4], pkt[4..6], pkt[6], pkt[7], pkt[8..24], pkt[24..40],
                pkt[40..42], pkt[42..44], pkt[44..]);
    assert pkt == [pkt[0]] + pkt[1..4] + pkt[4..6] + [pkt[6], pkt[7]]
                  + pkt[8..24] + pkt[24..40] + pkt[40..42] + pkt[42..44] + pkt[44..];
  }

  // ---------------------------------------------------------------- the cache key

  function Digit(d: nat): char
    requires d < 10
  {
    (d as char) + '0'
  }

  function Decimal(n: nat): (s: string)
    ensures s != [] && ':' !in s
  {
    if n < 10 then [Digit(n)] else Decimal(n / 10) + [Digit(n % 10)]
  }

  /** The number a string of decimal digits stands for. */
  function Value(s: string): int {
    if s == [] then 0 else 10 * Value(s[..|s| - 1]) + (s[|s| - 1] as int - '0' as int)
  }

  /** Decimal digits without leading zeros, for that number. */
  lemma {:induction false} DecimalValue(n: nat)
    ensures Value(Decimal(n)) == n && (forall c :: c in Decimal(n) ==> '0' <= c <= '9')
    ensures Decimal(n)[0] == '0' ==> n == 0
  {
    if n >= 10 {
      DecimalValue(n / 10);
      assert Decimal(n)[..|Decimal(n)| - 1] == Decimal(n / 10);
    } else {
      assert Decimal(n)[..0] == [];
    }
  }

  /** What a format's verb prints. */
  datatype Part = Text(s: string) | Number(n: nat)

  function Format(ps: seq<Part>): string {
    if ps == [] then ""
    else (match ps[0] case Text(s) => s case Number(n) => Decimal(n)) + Format(ps[1..])
  }

  /** vip:port:proto, as it is printed by "%s:%d:%s". */
  function Key(f: Flow): string {
    Format([Text(f.vip), Text(":"), Number(f.port), Text(":"), Text(f.proto)])
  }

  lemma KeyIs(f: Flow)
    ensures Key(f) == f.vip + ":" + Decimal(f.port) + ":" + f.proto
  {
    var ps := [Text(f.vip), Text(":"), Number(f.port), Text(":"), Text(f.proto)];
    assert Format(ps[5..]) == "";
    assert Format(ps[4..]) == f.proto by {
      assert ps[4..][1..] == ps[5..] && f.proto + "" == f.proto;
    }
    assert ps[3..][1..] == ps[4..] && ps[2..][1..] == ps[3..] && ps[1..][1..] == ps[2..];
    assert Format(ps[2..]) == Decimal(f.port) + (":" + f.proto);
    assert Format(ps) == f.vip + (":" + (Decimal(f.port) + (":" + f.proto)));
  }

  lemma {:induction false} DecimalInjective(a: nat, b: nat)
    requires Decimal(a) == Decimal(b)
    ensures a == b
  {
    var s, t := Decimal(a), Decimal(b);
    assert s[|s| - 1] == Digit(a % 10) && t[|t| - 1] == Digit(b % 10);
    if a >= 10 && b >= 10 {
      assert s[..|s| - 1] == Decimal(a / 10) && t[..|t| - 1] == Decimal(b / 10);
      DecimalInjective(a / 10, b / 10);
    }
  }

  lemma NoColonAfter(s: string, a: string, x: string)
    requires ':' !in x && s == a + ":" + x
    ensures |a| < |s| && s[|a|] == ':' && forall i :: |a| < i < |s| ==> s[i] != ':'
    ensures a == s[..|a|] && x == s[|a| + 1..]
  {
  }

  /** The last colon splits off a tail that has none. */
  lemma LastColon(a: string, x: string, b: string, y: string)
    requires ':' !in x && ':' !in y && a + ":" + x == b + ":" + y
    ensures a == b && x == y
  {
    var s := a + ":" + x;
    NoColonAfter(s, a, x);
    NoColonAfter(s, b, y);
    assert |a| == |b|;
  }

  /** Address text full of colons does not make two flows share a key. */
  lemma KeyInjective(f: Flow, g: Flow)
    requires ':' !in f.proto && ':' !in g.proto
    ensures Key(f) == Key(g) <==> f == g
  {
    KeyIs(f);
    KeyIs(g);
    if Key(f) == Key(g) {
      LastColon(f.vip + ":" + Decimal(f.port), f.proto, g.vip + ":" + Decimal(g.port), g.proto);
      LastColon(f.vip, Decimal(f.port), g.vip, Decimal(g.port));
      DecimalInjective(f.port, g.port);
    }
  }
}
