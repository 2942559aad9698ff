/** The service range as a CIDR prefix: addresses as 128-bit numbers that agree in their leading bits. */
module ServiceRange {
  import opened Bytes
  import opened FlowKey
  import opened PacketPath

  /** An address as a number, the first byte the most significant. */
  function Num(a: seq<byte>): nat {
    if a == [] then 0 else 256 * Num(a[..|a| - 1]) + a[|a| - 1]
  }

  lemma {:induction false} NumInjective(a: seq<byte>, b: seq<byte>)
    requires |a| == |b| && Num(a) == Num(b)
    ensures a == b
  {
    if a != [] {
      NumInjective(a[..|a| - 1], b[..|b| - 1]);
      assert a == a[..|a| - 1] + [a[|a| - 1]] && b == b[..|b| - 1] + [b[|b| - 1]];
    }
  }

  /** Byte by byte as the rule compares them. */
  predicate Covers(net: seq<byte>, a: seq<byte>, prefix: nat)
    requires |a| == |net|
  {
    forall k :: 0 <= k < |a| ==> Masked(a[k], prefix - 8 * k) == net[k]
  }

  /** The numbers agree above the last low bits, and net has no bit below. */
  predicate Agree(m: nat, n: nat, low: nat) {
    n / Pow2(low) == m / Pow2(low) && m % Pow2(low) == 0
  }

  lemma CutLow(b: nat, n: nat, p: nat)
    requires p > 0
    ensures b - b % p == n <==> n / p == b / p && n % p == 0
  {
    assert b == p * (b / p) + b % p && n == p * (n / p) + n % p;
    if b - b % p == n {
      ModUnique(n, p, b / p, 0);
    }
  }

  lemma MaskedCuts(b: byte, ones: nat)
    requires ones <= 8
    ensures Masked(b, ones) == b - b % Pow2(8 - ones)
  {
    match ones
    case 0 => assert Pow2(4) == 16 && Pow2(8) == 256;
    case 1 => assert Pow2(3) == 8 && Pow2(7) == 128;
    case 2 => assert Pow2(3) == 8 && Pow2(6) == 64;
    case 3 => assert Pow2(2) == 4 && Pow2(5) == 32;
    case 4 => assert Pow2(2) == 4 && Pow2(4) == 16;
    case 5 => assert Pow2(2) == 4 && Pow2(3) == 8;
    case 6 => assert Pow2(2) == 4;
    case 7 => assert Pow2(1) == 2;
    case 8 => assert Pow2(0) == 1;
  }

  lemma MaskedAgrees(b: byte, n: byte, ones: nat)
    requires ones <= 8
    ensures Masked(b, ones) == n <==> Agree(n, b, 8 - ones)
  {
    MaskedCuts(b, ones);
    CutLow(b, n, Pow2(8 - ones));
  }

  lemma Pow2Eight(k: nat)
    ensures Pow2(k + 8) == 256 * Pow2(k)
  {
    assert Pow2(k + 2) == 4 * Pow2(k);
    assert Pow2(k + 4) == 4 * Pow2(k + 2);
    assert Pow2(k + 6) == 4 * Pow2(k + 4);
    assert Pow2(k + 8) == 4 * Pow2(k + 6);
  }

  lemma DivStep(n: nat, x: byte, p: nat)
    requires p > 0
    ensures (256 * n + x) / (256 * p) == n / p && (256 * n + x) % (256 * p) == 256 * (n % p) + x
  {
    var q, r := n / p, n % p;
    assert n == p * q + r;
    assert 256 * n + x == (256 * p) * q + (256 * r + x);
    ModUnique(256 * n + x, 256 * p, q, 256 * r + x);
  }

  /** If the prefix ends before the last byte, that byte has to be zero in net and may be anything in a. */
  lemma LastFree(m: nat, n: nat, y: byte, x: byte, low: nat)
    ensures Agree(256 * m + y, 256 * n + x, low + 8) <==> Agree(m, n, low) && y == 0
  {
    Pow2Eight(low);
    DivStep(m, y, Pow2(low));
    DivStep(n, x, Pow2(low));
  }

  lemma LastOf(m: nat, y: byte, p: nat, c: nat)
    requires p * c == 256 && p > 0
    ensures (256 * m + y) / p == c * m + y / p && (256 * m + y) % p == y % p && y / p < c
  {
    assert y == p * (y / p) + y % p;
    assert 256 * m == (p * c) * m == p * (c * m);
    ModUnique(256 * m + y, p, c * m + y / p, y % p);
    LessBy(p, y / p, c);
  }

  lemma LessBy(p: nat, i: nat, c: nat)
    requires p * i < p * c
    ensures i < c
  {
  }

  lemma SameDigits(m: nat, n: nat, i: nat, j: nat, c: nat)
    requires i < c && j < c && c * m + i == c * n + j
    ensures m == n && i == j
  {
    ModUnique(c * m + i, c, m, i);
    ModUnique(c * m + i, c, n, j);
  }

  /** If it ends in the last byte, all others are the same. */
  lemma LastPartial(m: nat, n: nat, y: byte, x: byte, low: nat)
    requires low < 8
    ensures Agree(256 * m + y, 256 * n + x, low) <==> m == n && Agree(y, x, low)
  {
    Pow2Parts(low);
    LastOf(m, y, Pow2(low), Pow2(8 - low));
    LastOf(n, x, Pow2(low), Pow2(8 - low));
    if Agree(256 * m + y, 256 * n + x, low) {
      SameDigits(m, n, y / Pow2(low), x / Pow2(low), Pow2(8 - low));
    }
  }

  lemma {:induction false} Pow2Parts(k: nat)
    requires k <= 8
    ensures Pow2(k) * Pow2(8 - k) == 256
  {
    if k == 0 {
      assert Pow2(4) == 16 && Pow2(8) == 256;
    } else {
      Pow2Parts(k - 1);
      assert Pow2(8 - (k - 1)) == 2 * Pow2(8 - k);
    }
  }

  lemma {:induction false} CoversExactly(net: seq<byte>, a: seq<byte>, prefix: nat)
    requires |a| == |net| && prefix <= 8 * |a|
    ensures Covers(net, a, prefix) <==> Agree(Num(net), Num(a), 8 * |a| - prefix)
  {
    if a != [] {
      var last := |a| - 1;
      var a', net' := a[..last], net[..last];
      assert Covers(net, a, prefix) <==>
             Covers(net', a', prefix) && Masked(a[last], prefix - 8 * last) == net[last];
      if prefix <= 8 * last {
        CoversExactly(net', a', prefix);
        LastFree(Num(net'), Num(a'), net[last], a[last], 8 * last - prefix);
      } else {
        assert Covers(net', a', prefix) <==> a' == net';
        if Num(a') == Num(net') {
          NumInjective(a', net');
        }
        MaskedAgrees(a[last], net[last], prefix - 8 * last);
        LastPartial(Num(net'), Num(a'), net[last], a[last], 8 * |a| - prefix);
      }
    }
  }

  /**
   A packet is for the service range exactly if it has a whole header and its destination address agrees with the
   range's in as many leading bits as the prefix has, the range's other bits being clear.
   */
  lemma InRangeExactly(c: Config, pkt: seq<byte>)
    requires |c.net| == 16 && c.prefix <= 128
    ensures InRange(c, pkt) <==> |pkt| >= 40 && Agree(Num(c.net), Num(pkt[24..40]), 128 - c.prefix)
  {
    if |pkt| >= 40 {
      var dst := pkt[24..40];
      assert forall k :: 0 <= k < 16 ==> pkt[24 + k] == dst[k];
      CoversExactly(c.net, dst, c.prefix);
    }
  }

  /** Bytes 24 to 39 are where a packet's destination address is. */
  lemma DestinationAt(p: Packet)
    requires WellSized(p)
    ensures |Serialize(p)| >= 40 && Serialize(p)[24..40] == p.dst
  {
    SerializeFields(p, Serialize(p));
  }
}
