/** Variable-length integers of up to 64 bits, seven bits to a byte, low bits first (js/src/varint.ts). */
module Varint {
  import opened Base

  const TWO_TO_64: nat := 0x1_0000_0000_0000_0000

  // The source's masks and shifts on a value x >= 0 read, in arithmetic: x & 0x7f is x % 128, or-ing 0x80
  // to that adds 128, and x >> 7 is x / 128.

  function Uvarint(v: nat): (b: seq<byte>)
    ensures |b| > 0
  {
    if v < 128 then [v] else [v % 128 + 128] + Uvarint(v / 128)
  }

  method UvarintLen(v: nat) returns (n: nat)
    ensures n == |Uvarint(v)|
  {
    n := 1;
    var x := v;
    while x >= 128
      invariant n + |Uvarint(x)| == |Uvarint(v)| + 1
    {
      x := x / 128;
      n := n + 1;
    }
  }

  /** Appends to dst, in a new array; there is no result for a negative value. */
  method AppendUvarint(dst: array<byte>, v: int) returns (out: Option<array<byte>>)
    ensures out.Some? <==> v >= 0
    ensures out.Some? ==> fresh(out.value) && out.value[..] == dst[..] + Uvarint(v)
  {
    if v < 0 {
      return None;
    }
    var x: nat := v;
    var n := UvarintLen(x);
    var a := new byte[dst.Length + n];
    forall k | 0 <= k < dst.Length {
      a[k] := dst[k];
    }
    var i := dst.Length;
    assert a[..i] == dst[..];
    while x >= 128
      invariant dst.Length <= i && i + |Uvarint(x)| == a.Length
      invariant a[..i] + Uvarint(x) == dst[..] + Uvarint(v)
    {
      ghost var was, top := a[..i], x;
      a[i] := x % 128 + 128;
      x := x / 128;
      i := i + 1;
      assert a[..i] == was + [top % 128 + 128];
    }
    a[i] := x;
    assert a[..] == a[..i] + [x];
    return Some(a);
  }

  // ---------- decoding ----------

  datatype Decoded = Incomplete | Overflow | Value(v: nat, size: nat)

  /** Decodes from byte number i of a value on. */
  function DecodeAt(b: seq<byte>, i: nat): Decoded
    decreases |b|
  {
    if b == [] then Incomplete
    else if i == 9 then (if b[0] > 1 then Overflow else Value(b[0], 1))
    else if b[0] < 128 then Value(b[0], 1)
    else match DecodeAt(b[1..], i + 1)
      case Value(v, size) => Value(b[0] - 128 + 128 * v, size + 1)
      case other => other
  }

  function Decode(b: seq<byte>): Decoded {
    DecodeAt(b, 0)
  }

  /** What the loop makes of the rest, with result so far and the weight of the next seven bits. */
  function Finish(result: nat, weight: nat, size: nat, rest: Decoded): Decoded {
    match rest
    case Value(v, n) => Value(result + weight * v, size + n)
    case other => other
  }

  method DecodeUvarint(buf: array<byte>, off: nat) returns (r: Decoded)
    ensures r == if off <= buf.Length then Decode(buf[off..]) else Incomplete
  {
    if off > buf.Length {
      return Incomplete;
    }
    var result: nat, weight: nat := 0, 1;
    ghost var goal := Decode(buf[off..]);
    for i := off to buf.Length
      invariant weight > 0 && i - off <= 9
      invariant goal == Finish(result, weight, i - off, DecodeAt(buf[i..], i - off))
    {
      var b := buf[i];
      assert buf[i..][1..] == buf[i + 1..];
      if i - off == 9 {
        if b > 1 {
          return Overflow;
        }
        return Value(result + weight * b, i - off + 1);
      }
      FinishStep(result, weight, i - off, buf[i..]);
      result := result + weight * (b % 128);
      if b < 128 {
        return Value(result, i - off + 1);
      }
      weight := weight * 128;
    }
    r := Incomplete;
  }

  lemma Distribute(weight: nat, low: nat, v: nat)
    ensures weight * (low + 128 * v) == weight * low + weight * 128 * v
  {
  }

  lemma FinishStep(result: nat, weight: nat, i: nat, b: seq<byte>)
    requires b != [] && i < 9
    ensures Finish(result, weight, i, DecodeAt(b, i)) ==
      if b[0] < 128 then Value(result + weight * (b[0] % 128), i + 1)
      else Finish(result + weight * (b[0] % 128), weight * 128, i + 1, DecodeAt(b[1..], i + 1))
  {
    if b[0] >= 128 {
      var low: nat := b[0] - 128;
      assert low == b[0] % 128;
      match DecodeAt(b[1..], i + 1)
      case Value(v, n) => Distribute(weight, low, v);
      case _ =>
    }
  }

  // ---------- round trip ----------

  /** Values below this fit into the bytes from number i on. */
  function Limit(i: nat): (r: nat)
    requires i <= 9
    ensures r >= 2
    decreases 9 - i
  {
    if i == 9 then 2 else 128 * Limit(i + 1)
  }

  lemma {:induction false} EncodedDecodes(v: nat, i: nat, rest: seq<byte>)
    requires i <= 9 && v < Limit(i)
    ensures DecodeAt(Uvarint(v) + rest, i) == Value(v, |Uvarint(v)|)
    ensures |Uvarint(v)| + i <= 10
    decreases v
  {
    var b := Uvarint(v) + rest;
    if v >= 128 {
      assert i < 9;
      EncodedDecodes(v / 128, i + 1, rest);
      assert b[1..] == Uvarint(v / 128) + rest;
    }
  }

  /** Every 64-bit value comes back from at most ten bytes, whatever follows them. */
  lemma RoundTrip(v: nat, rest: seq<byte>)
    requires v < TWO_TO_64
    ensures Decode(Uvarint(v) + rest) == Value(v, |Uvarint(v)|) && |Uvarint(v)| <= 10
  {
    LimitIs64Bits();
    EncodedDecodes(v, 0, rest);
  }

  lemma LimitIs64Bits()
    ensures Limit(0) == TWO_TO_64
  {
    assert Limit(8) == 256 && Limit(6) == 0x40_0000 && Limit(4) == 0x10_0000_0000;
    assert Limit(2) == 0x4_0000_0000_0000;
  }

  lemma {:induction false} DecodedFits(b: seq<byte>, i: nat)
    requires i <= 9 && DecodeAt(b, i).Value?
    ensures var r := DecodeAt(b, i);
      r.v < Limit(i) && 1 <= r.size <= |b| && r.size + i <= 10 && |Uvarint(r.v)| <= r.size
    decreases |b|
  {
    if i < 9 && b[0] >= 128 {
      DecodedFits(b[1..], i + 1);
      var v, low: nat := DecodeAt(b[1..], i + 1).v, b[0] - 128;
      OneMoreByte(low, v);
    } else {
      assert i < 9 ==> Limit(i) >= 256;
    }
  }

  lemma OneMoreByte(low: nat, v: nat)
    requires low < 128
    ensures |Uvarint(low + 128 * v)| <= 1 + |Uvarint(v)|
  {
    assert (low + 128 * v) / 128 == v;
  }

  /** Whatever decodes is a 64-bit value of at most ten bytes, and its encoding is no longer than what was read. */
  lemma DecodedIs64Bits(b: seq<byte>)
    requires Decode(b).Value?
    ensures Decode(b).v < TWO_TO_64 && Decode(b).size <= Min(|b|, 10)
    ensures |Uvarint(Decode(b).v)| <= Decode(b).size
  {
    LimitIs64Bits();
    DecodedFits(b, 0);
  }

  /** Bytes after a value do not change it. */
  lemma {:induction false} DecodeExtends(b: seq<byte>, i: nat, more: seq<byte>)
    requires DecodeAt(b, i).Value?
    ensures DecodeAt(b + more, i) == DecodeAt(b, i)
    decreases |b|
  {
    if i != 9 && b[0] >= 128 {
      DecodeExtends(b[1..], i + 1, more);
      assert (b + more)[1..] == b[1..] + more;
    }
  }

  /** Decoding overflows exactly on nine continued bytes followed by one above 1. */
  lemma {:induction false} OverflowsExactly(b: seq<byte>, i: nat)
    requires i <= 9
    ensures DecodeAt(b, i) == Overflow <==>
      |b| >= 10 - i && b[9 - i] > 1 && forall k :: 0 <= k < 9 - i ==> b[k] >= 128
    decreases |b|
  {
    if b != [] && i < 9 {
      OverflowsExactly(b[1..], i + 1);
      assert forall k :: 1 <= k < |b| ==> b[k] == b[1..][k - 1];
    }
  }

  /** The values of the standard library of Go (js/test/varint.test.ts:8-17). */
  lemma KnownValues()
    ensures Uvarint(0) == [0] && Uvarint(1) == [1] && Uvarint(127) == [0x7f] && Uvarint(128) == [0x80, 0x01]
    ensures Uvarint(300) == [0xac, 0x02] && Uvarint(255) == [0xff, 0x01]
    ensures Uvarint(0xffff_ffff) == [0xff, 0xff, 0xff, 0xff, 0x0f]
    ensures Uvarint(0xffff_ffff_ffff_ffff) == [0xff, 0xff, 0xff, 0xff, 0xff, 0xff, 0xff, 0xff, 0xff, 0x01]
  {
    assert Uvarint(0xffff_ffff / 128 / 128 / 128 / 128) == [0x0f];
  }
}
