/** The framed connection between host and guest: a type byte, a big-endian length, the payload. */
module Frames {
  import opened Wrappers
  import opened Bytes

  datatype Frame = Frame(typ: byte, payload: seq<byte>)

  const STDOUT: byte := 1
  const STDERR: byte := 2
  const EXIT: byte := 3

  // ---------------------------------------------------------------- encoding

  /** binary.BigEndian.PutUint32: the low four bytes, the most significant first. */
  function PutUint32(n: nat): (s: seq<byte>)
    ensures |s| == 4
  {
    var low := EncodeLE(n, 4);
    [low[3], low[2], low[1], low[0]]
  }

  function Uint32Of(a: byte, b: byte, c: byte, d: byte): nat {
    DecodeLE([d, c, b, a])
  }

  lemma Uint32RoundTrip(n: nat)
    requires n < 0x1_0000_0000
    ensures var s := PutUint32(n); Uint32Of(s[0], s[1], s[2], s[3]) == n
  {
    var low := EncodeLE(n, 4);
    assert [low[0], low[1], low[2], low[3]] == low;
    DecodeEncode(n, 4);
    Widths();
  }

  function Header(f: Frame): (s: seq<byte>)
    ensures |s| == 5
  {
    [f.typ] + PutUint32(|f.payload|)
  }

  function Encode(f: Frame): (s: seq<byte>)
    ensures |s| == 5 + |f.payload|
  {
    Header(f) + f.payload
  }

  /** On the wire: the type, four bytes of length with the most significant first, the payload. */
  lemma EncodedAs(f: Frame)
    requires Sendable(f)
    ensures var s := Encode(f);
            && s[0] == f.typ && s[5..] == f.payload
            && 0x100_0000 * (s[1] as int) + 0x1_0000 * (s[2] as int) + 0x100 * (s[3] as int) + s[4] == |f.payload|
  {
    var s, low := Encode(f), EncodeLE(|f.payload|, 4);
    assert s[1] == low[3] && s[2] == low[2] && s[3] == low[1] && s[4] == low[0];
    FourDigits(low);
    DecodeEncode(|f.payload|, 4);
    Widths();
  }

  lemma FourDigits(s: seq<byte>)
    requires |s| == 4
    ensures DecodeLE(s)
         == s[0] + 0x100 * (s[1] as int) + 0x1_0000 * (s[2] as int) + 0x100_0000 * (s[3] as int)
  {
    assert s[1..][1..] == s[2..] && s[2..][1..] == s[3..] && s[3..][1..] == [];
    assert DecodeLE(s[3..]) == s[3];
    assert DecodeLE(s[2..]) == s[2] + 256 * DecodeLE(s[3..]);
    assert DecodeLE(s[1..]) == s[1] + 256 * DecodeLE(s[2..]);
  }

  function EncodeAll(fs: seq<Frame>): seq<byte> {
    if fs == [] then [] else Encode(fs[0]) + EncodeAll(fs[1..])
  }

  /** The payload's length fits its field. */
  predicate Sendable(f: Frame) {
    |f.payload| < 0x1_0000_0000
  }

  // ---------------------------------------------------------------- decoding

  datatype Parsed = Parsed(frame: Frame, rest: seq<byte>)

  /** readFrame on the bytes still to come. */
  function ReadFrame(s: seq<byte>): (r: Result<Parsed>)
    ensures r.Ok? ==> |r.value.rest| < |s|
  {
    if |s| < 5 then
      Err
    else
      var n := Uint32Of(s[1], s[2], s[3], s[4]);
      if |s| - 5 < n then Err else Ok(Parsed(Frame(s[0], s[5..5 + n]), s[5 + n..]))
  }

  /** All frames up to the first read error. */
  function ReadAll(s: seq<byte>): seq<Frame>
    decreases |s|
  {
    match ReadFrame(s)
    case Err => []
    case Ok(p) => [p.frame] + ReadAll(p.rest)
  }

  lemma ReadEncoded(f: Frame, rest: seq<byte>)
    requires Sendable(f)
    ensures ReadFrame(Encode(f) + rest) == Ok(Parsed(f, rest))
  {
    Uint32RoundTrip(|f.payload|);
    var s := Encode(f) + rest;
    assert s[0] == f.typ && s[1..5] == PutUint32(|f.payload|);
    assert s[1] == s[1..5][0] && s[2] == s[1..5][1] && s[3] == s[1..5][2] && s[4] == s[1..5][3];
    assert s[5..5 + |f.payload|] == f.payload && s[5 + |f.payload|..] == rest;
  }

  /** A frame cut short cannot be read. */
  lemma ReadCut(f: Frame, s: seq<byte>)
    requires Sendable(f) && s <= Encode(f) && |s| < |Encode(f)|
    ensures ReadFrame(s).Err?
  {
    if |s| >= 5 {
      Uint32RoundTrip(|f.payload|);
      var e := Encode(f);
      assert e[1..5] == PutUint32(|f.payload|);
      assert s[1] == e[1..5][0] && s[2] == e[1..5][1] && s[3] == e[1..5][2] && s[4] == e[1..5][3];
    }
  }

  lemma ReadAllCons(f: Frame, rest: seq<byte>)
    requires Sendable(f)
    ensures ReadAll(Encode(f) + rest) == [f] + ReadAll(rest)
  {
    ReadEncoded(f, rest);
  }

  lemma HeadFirst(s: seq<Frame>, r: seq<Frame>)
    requires s != []
    ensures s + r == [s[0]] + (s[1..] + r)
  {
  }

  lemma PrefixFirst(s: seq<Frame>, m: nat)
    requires m < |s|
    ensures s[..m + 1] == [s[0]] + s[1..][..m]
  {
  }

  /** A reader of whole frames gets them all, and then whatever the bytes behind them hold. */
  lemma {:induction false} ReadAllThen(fs: seq<Frame>, tail: seq<byte>)
    requires forall i :: 0 <= i < |fs| ==> Sendable(fs[i])
    ensures ReadAll(EncodeAll(fs) + tail) == fs + ReadAll(tail)
    decreases fs
  {
    if fs == [] {
      assert EncodeAll(fs) + tail == tail;
    } else {
      var rest := EncodeAll(fs[1..]) + tail;
      assert EncodeAll(fs) + tail == Encode(fs[0]) + rest;
      ReadAllCons(fs[0], rest);
      ReadAllThen(fs[1..], tail);
      HeadFirst(fs, ReadAll(tail));
    }
  }

  /** k frames of fs are whole in the prefix s of their encoding; the next one, if any, is cut. */
  ghost predicate WholeIn(fs: seq<Frame>, s: seq<byte>, k: nat) {
    && k <= |fs| && EncodeAll(fs[..k]) <= s
    && (k < |fs| ==> |s| < |EncodeAll(fs[..k])| + |Encode(fs[k])|)
  }

  lemma CutAfterFirst(fs: seq<Frame>, s: seq<byte>)
    requires fs != [] && s <= EncodeAll(fs) && |s| >= |Encode(fs[0])|
    ensures var rest := s[|Encode(fs[0])|..]; s == Encode(fs[0]) + rest && rest <= EncodeAll(fs[1..])
  {
    assert EncodeAll(fs)[|Encode(fs[0])|..] == EncodeAll(fs[1..]);
  }

  lemma WholeMore(fs: seq<Frame>, s: seq<byte>, m: nat)
    requires fs != [] && |s| >= |Encode(fs[0])| && s == Encode(fs[0]) + s[|Encode(fs[0])|..]
    requires WholeIn(fs[1..], s[|Encode(fs[0])|..], m)
    ensures WholeIn(fs, s, m + 1)
  {
    assert fs[..m + 1][0] == fs[0] && fs[..m + 1][1..] == fs[1..][..m];
    assert EncodeAll(fs[..m + 1]) == Encode(fs[0]) + EncodeAll(fs[1..][..m]);
  }

  /** However the stream is cut, the reader gets exactly the frames that are whole, in order. */
  lemma {:induction false} ReadTruncated(fs: seq<Frame>, s: seq<byte>) returns (k: nat)
    requires forall i :: 0 <= i < |fs| ==> Sendable(fs[i])
    requires s <= EncodeAll(fs)
    ensures WholeIn(fs, s, k) && ReadAll(s) == fs[..k]
    decreases fs
  {
    if fs == [] {
      k := 0;
      assert EncodeAll(fs[..0]) == [];
    } else if |s| < |Encode(fs[0])| {
      k := 0;
      assert fs[..0] == [] && s <= Encode(fs[0]);
      ReadCut(fs[0], s);
    } else {
      var rest := s[|Encode(fs[0])|..];
      CutAfterFirst(fs, s);
      var m := ReadTruncated(fs[1..], rest);
      k := m + 1;
      ReadAllCons(fs[0], rest);
      WholeMore(fs, s, m);
      PrefixFirst(fs, m);
    }
  }

  // ---------------------------------------------------------------- the connection's ends

  class Conn {
    var stream: seq<byte> // what has gone out
    var room: nat         // how much more the other side takes before the connection breaks

    /** Write: everything, or as much as there is room for and an error. */
    method Put(s: seq<byte>) returns (ok: bool)
      modifies this
      ensures ok == (|s| <= old(room))
      ensures stream == old(stream) + (if ok then s else s[..old(room)]) && room == (if ok then old(room) - |s| else 0)
    {
      ok := |s| <= room;
      stream := stream + (if ok then s else s[..room]);
      room := if ok then room - |s| else 0;
    }

    /** writeFrame, under its lock: the whole frame, or an error and a stream cut inside it. */
    method WriteFrame(typ: byte, payload: seq<byte>) returns (ok: bool)
      modifies this
      ensures ok ==> stream == old(stream) + Encode(Frame(typ, payload))
      ensures !ok ==> old(stream) <= stream <= old(stream) + Encode(Frame(typ, payload))
      ensures !ok ==> |stream| < |old(stream)| + 5 + |payload|
    {
      var hdr := new byte[5];
      var n := PutUint32(|payload|);
      hdr[0], hdr[1], hdr[2], hdr[3], hdr[4] := typ, n[0], n[1], n[2], n[3];
      assert hdr[..] == Header(Frame(typ, payload));
      ghost var e := Encode(Frame(typ, payload));
      ok := Put(hdr[..]);
      if ok {
        ok := Put(payload);
        assert ok ==> stream == old(stream) + e;
        if !ok {
          assert Header(Frame(typ, payload)) + payload[..|stream| - |old(stream)| - 5] == e[..|stream| - |old(stream)|];
        }
      } else {
        assert hdr[..][..old(room)] == e[..old(room)];
      }
    }
  }

  class Reader {
    const data: seq<byte>
    var pos: nat

    ghost predicate Valid()
      reads this
    {
      pos <= |data|
    }

    constructor (data: seq<byte>)
      ensures Valid() && this.data == data && pos == 0
    {
      this.data, pos := data, 0;
    }

    /** readFrame: two full reads, or an error. */
    method ReadNext() returns (r: Result<Frame>)
      requires Valid()
      modifies this
      ensures Valid()
      ensures match ReadFrame(data[old(pos)..])
              case Err => r.Err?
              case Ok(p) => r == Ok(p.frame) && data[pos..] == p.rest && pos > old(pos)
    {
      ghost var s := data[pos..];
      if |data| - pos < 5 {
        return Err;
      }
      var n := Uint32Of(data[pos + 1], data[pos + 2], data[pos + 3], data[pos + 4]);
      if |data| - pos - 5 < n {
        return Err;
      }
      r := Ok(Frame(data[pos], data[pos + 5..pos + 5 + n]));
      assert s[5 + n..] == data[pos + 5 + n..] && s[5..5 + n] == data[pos + 5..pos + 5 + n];
      pos := pos + 5 + n;
    }
  }
}
