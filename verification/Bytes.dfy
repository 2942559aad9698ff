/** Bytes, little-endian integers, and the bytewise order of names. */
module Bytes {
  type byte = x: int | 0 <= x < 256
  type Name = seq<byte>

  function Zeros(n: nat): (z: seq<byte>)
    ensures |z| == n && forall i :: 0 <= i < n ==> z[i] == 0
  {
    seq(n, i => 0)
  }

  // ---------------------------------------------------------------- little-endian integers

  function Pow256(k: nat): (r: nat)
    ensures r > 0
  {
    if k == 0 then 1 else 256 * Pow256(k - 1)
  }

  /** The low k bytes of n: binary.LittleEndian.PutUint{16,32,64} for k = 2, 4, 8. */
  function EncodeLE(n: nat, k: nat): (s: seq<byte>)
    ensures |s| == k
  {
    if k == 0 then [] else [n % 256] + EncodeLE(n / 256, k - 1)
  }

  function DecodeLE(s: seq<byte>): nat {
    if s == [] then 0 else s[0] + 256 * DecodeLE(s[1..])
  }

  /** Reading k bytes back gives the number truncated to k bytes. */
  lemma {:induction false} DecodeEncode(n: nat, k: nat)
    ensures DecodeLE(EncodeLE(n, k)) == n % Pow256(k)
  {
    if k > 0 {
      DecodeEncode(n / 256, k - 1);
      assert EncodeLE(n, k)[1..] == EncodeLE(n / 256, k - 1);
      ModStep(n, Pow256(k - 1));
    }
  }

  lemma ModStep(n: nat, p: nat)
    requires p > 0
    ensures n % (256 * p) == n % 256 + 256 * ((n / 256) % p)
  {
    var q := n / 256;
    var b := n % 256 + 256 * (q % p);
    calc {
      n;
      256 * (p * (q / p) + q % p) + n % 256;
      256 * (p * (q / p)) + b;
      (256 * p) * (q / p) + b;
    }
    ModUnique(n, 256 * p, q / p, b);
  }

  lemma ModUnique(n: nat, d: nat, a: nat, b: nat)
    requires 0 <= b < d && n == d * a + b
    ensures n % d == b && n / d == a
  {
    var a', b' := n / d, n % d;
    assert n == d * a' + b';
    assert d * (a - a') == b' - b;
    if a > a' {
      MulGe(d, a - a');
    } else if a < a' {
      MulGe(d, a' - a);
    }
  }

  lemma MulGe(d: nat, k: nat)
    requires k >= 1
    ensures d * k >= d
  {
  }

  lemma Widths()
    ensures Pow256(1) == 0x100 && Pow256(2) == 0x1_0000
    ensures Pow256(4) == 0x1_0000_0000 && Pow256(8) == 0x1_0000_0000_0000_0000
  {
    assert Pow256(3) == 0x100_0000 && Pow256(4) == 0x1_0000_0000;
    assert Pow256(5) == 0x100_0000_0000 && Pow256(6) == 0x1_0000_0000_0000;
    assert Pow256(7) == 0x100_0000_0000_0000;
  }

  // ---------------------------------------------------------------- bitwise or

  function Pow2(k: nat): (r: nat)
    ensures r > 0
  {
    if k == 0 then 1 else 2 * Pow2(k - 1)
  }

  lemma Pow2Is()
    ensures Pow2(8) == 0x100 && Pow2(20) == 0x10_0000 && Pow2(32) == 0x1_0000_0000
  {
    assert Pow2(4) == 16 && Pow2(12) == 0x1000 && Pow2(16) == 0x1_0000 && Pow2(24) == 0x100_0000;
    assert Pow2(28) == 0x1000_0000;
  }

  function Or(a: nat, b: nat): nat
    decreases a + b
  {
    if a == 0 && b == 0 then 0 else (if a % 2 == 1 || b % 2 == 1 then 1 else 0) + 2 * Or(a / 2, b / 2)
  }

  lemma {:induction false} OrBelow(a: nat, b: nat, k: nat)
    requires a < Pow2(k) && b < Pow2(k)
    ensures Or(a, b) < Pow2(k)
  {
    if k > 0 {
      OrBelow(a / 2, b / 2, k - 1);
    }
  }

  lemma {:induction false} OrZero(b: nat)
    ensures Or(0, b) == b
  {
    if b > 0 {
      OrZero(b / 2);
    }
  }

  /** Below bit k and from bit k on, or is a sum. */
  lemma {:induction false} OrApart(a: nat, c: nat, k: nat)
    requires a < Pow2(k)
    ensures Or(a, c * Pow2(k)) == a + c * Pow2(k)
  {
    if k == 0 {
      OrZero(c);
    } else {
      var b := c * Pow2(k - 1);
      assert c * Pow2(k) == 2 * b;
      OrApart(a / 2, c, k - 1);
    }
  }

  /** The k-byte little-endian integer at offset off, 0 when it would run past the end. */
  function ReadLE(s: seq<byte>, off: nat, k: nat): nat {
    if off + k <= |s| then DecodeLE(s[off..off + k]) else 0
  }

  /** If s holds EncodeLE(n, k) at off, the reader gets n back modulo its width. */
  lemma ReadBack(s: seq<byte>, off: nat, n: nat, k: nat)
    requires off + k <= |s| && s[off..off + k] == EncodeLE(n, k)
    ensures ReadLE(s, off, k) == n % Pow256(k)
  {
    DecodeEncode(n, k);
  }

  /** The bytes of s up to its first zero (strnlen). */
  function UpToNul(s: seq<byte>): (r: seq<byte>)
    ensures r <= s
  {
    if s == [] || s[0] == 0 then [] else [s[0]] + UpToNul(s[1..])
  }

  lemma {:induction false} UpToNulPadded(name: Name, pad: nat)
    requires 0 !in name
    ensures UpToNul(name + Zeros(pad)) == name
  {
    var s := name + Zeros(pad);
    if name != [] {
      assert s[1..] == name[1..] + Zeros(pad);
      assert 0 !in name[1..];
      UpToNulPadded(name[1..], pad);
    } else if pad > 0 {
      assert s[0] == 0;
    }
  }

  // ---------------------------------------------------------------- order

  /** bytes.Compare(a, b) < 0. */
  predicate Lt(a: Name, b: Name) {
    b != [] && (a == [] || a[0] < b[0] || (a[0] == b[0] && Lt(a[1..], b[1..])))
  }

  /** a and b agree on k bytes, and then a ends first or goes on with the smaller byte. */
  predicate SplitsAt(a: Name, b: Name, k: nat) {
    k <= |a| && k < |b| && a[..k] == b[..k] && (k == |a| || a[k] < b[k])
  }

  /** The order is that of the first difference. */
  lemma {:induction false} LtIs(a: Name, b: Name)
    ensures Lt(a, b) <==> exists k :: SplitsAt(a, b, k)
  {
    if a != [] && b != [] && a[0] == b[0] {
      LtIs(a[1..], b[1..]);
      if k: nat :| SplitsAt(a[1..], b[1..], k) {
        assert a[..k + 1] == [a[0]] + a[1..][..k] && b[..k + 1] == [b[0]] + b[1..][..k];
        assert SplitsAt(a, b, k + 1);
      }
      if k: nat :| SplitsAt(a, b, k) {
        assert a[1..][..k - 1] == a[..k][1..] && b[1..][..k - 1] == b[..k][1..];
        assert SplitsAt(a[1..], b[1..], k - 1);
      }
    } else if b != [] && (a == [] || a[0] < b[0]) {
      assert SplitsAt(a, b, 0);
    } else {
      forall k: nat ensures !SplitsAt(a, b, k) {
        SameStart(a, b, k);
      }
    }
  }

  lemma SameStart(a: Name, b: Name, k: nat)
    ensures SplitsAt(a, b, k) && k > 0 ==> a[0] == b[0]
  {
    if SplitsAt(a, b, k) && k > 0 {
      assert a[..k][0] == b[..k][0];
    }
  }

  lemma {:induction false} LtTrans(a: Name, b: Name, c: Name)
    requires Lt(a, b) && Lt(b, c)
    ensures Lt(a, c)
  {
    if a != [] && a[0] == b[0] == c[0] {
      LtTrans(a[1..], b[1..], c[1..]);
    }
  }

  lemma {:induction false} LtTotal(a: Name, b: Name)
    ensures a == b || Lt(a, b) || Lt(b, a)
    ensures !(Lt(a, b) && Lt(b, a)) && !Lt(a, a)
  {
    if a != [] && b != [] && a[0] == b[0] {
      LtTotal(a[1..], b[1..]);
      LtIrrefl(a);
      assert a == [a[0]] + a[1..] && b == [b[0]] + b[1..];
    } else if a != [] {
      LtIrrefl(a);
    }
  }

  lemma {:induction false} LtIrrefl(a: Name)
    ensures !Lt(a, a)
  {
    if a != [] {
      LtIrrefl(a[1..]);
    }
  }
}
