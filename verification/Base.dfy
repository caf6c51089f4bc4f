/** Values shared by every part of the model. */
module Base {

  type byte = x: int | 0 <= x < 256

  /** Largest payload of one DATA frame. */
  const MAX_FRAME_PAYLOAD: nat := 65536

  /** Most ranges one acknowledgement carries. */
  const MAX_ACK_RANGES: nat := 32

  /** A half-open interval of stream offsets. */
  datatype ByteRange = ByteRange(start: nat, end: nat)

  datatype Option<+T> = None | Some(value: T)

  function Min(a: nat, b: nat): nat {
    if a <= b then a else b
  }

  function Max(a: int, b: int): int {
    if a >= b then a else b
  }

  /** The bytes of a stream that lie in [from, to). */
  ghost predicate IsSlice(data: seq<byte>, stream: seq<byte>, from: nat) {
    from + |data| <= |stream| && data == stream[from..from + |data|]
  }

  lemma SliceOfSlice(data: seq<byte>, stream: seq<byte>, from: nat, d: nat, n: nat)
    requires IsSlice(data, stream, from) && d + n <= |data|
    ensures IsSlice(data[d..d + n], stream, from + d)
  {
    var x, y := data[d..d + n], stream[from + d..from + d + n];
    forall k | 0 <= k < |x|
      ensures x[k] == y[k]
    {
      assert data[d + k] == stream[from..from + |data|][d + k];
    }
  }

  lemma CutAround<T>(xs: seq<T>, i: nat)
    requires i < |xs|
    ensures xs == xs[..i] + [xs[i]] + xs[i + 1..]
  {
  }

  function Flatten(chunks: seq<seq<byte>>): seq<byte> {
    if chunks == [] then [] else chunks[0] + Flatten(chunks[1..])
  }

  lemma {:induction false} FlattenAppend(chunks: seq<seq<byte>>, c: seq<byte>)
    ensures Flatten(chunks + [c]) == Flatten(chunks) + c
  {
    if chunks == [] {
      assert [] + [c] == [c];
    } else {
      FlattenAppend(chunks[1..], c);
      assert (chunks + [c])[1..] == chunks[1..] + [c];
    }
  }
}
