/** The frames of one path, their encoding and the reader that takes them off the byte stream (frame.go). */
module Frames {
  import opened Base
  import opened Intervals
  import opened Varint

  const FRAME_DATA: byte := 1
  const FRAME_ACK: byte := 2
  const FIRST_CTRL: byte := 3
  const LAST_CTRL: byte := 10
  const MAX_CTRL_BODY: nat := 65536

  datatype Frame =
    | Data(off: nat, sendTs: nat, payload: seq<byte>)
    | Ack(cum: nat, tsEcho: nat, tsPath: nat, window: nat, seqNo: nat, ranges: seq<ByteRange>)
    | Ctrl(kind: byte, body: seq<byte>)

  // ---------- encoding ----------

  function EncodeRanges(rs: seq<ByteRange>): seq<byte> {
    if rs == [] then [] else Fields([rs[0].start, rs[0].end]) + EncodeRanges(rs[1..])
  }

  function CutRanges(rs: seq<ByteRange>): seq<ByteRange> {
    if |rs| > MAX_ACK_RANGES then rs[..MAX_ACK_RANGES] else rs
  }

  /** Fields one after another. */
  function Fields(vs: seq<nat>): seq<byte> {
    if vs == [] then [] else Uvarint(vs[0]) + Fields(vs[1..])
  }

  function TypeOf(f: Frame): byte {
    match f
    case Data(_, _, _) => FRAME_DATA
    case Ack(_, _, _, _, _, _) => FRAME_ACK
    case Ctrl(kind, _) => kind
  }

  function BodyOf(f: Frame): seq<byte> {
    match f
    case Data(off, sendTs, payload) => Fields([off, sendTs, |payload|]) + payload
    case Ack(cum, tsEcho, tsPath, window, seqNo, ranges) =>
      var cut := CutRanges(ranges);
      Fields([cum, tsEcho, tsPath, window, seqNo, |cut|]) + EncodeRanges(cut)
    case Ctrl(kind, body) => Fields([|body|]) + body
  }

  function Encode(f: Frame): seq<byte> {
    Uvarint(TypeOf(f)) + BodyOf(f)
  }

  lemma Regroup(a: seq<byte>, b: seq<byte>, c: seq<byte>)
    ensures a + b + c == a + (b + c)
  {
  }

  // The encoders grow the destination field by field.

  method AppendFields(dst: seq<byte>, vs: seq<nat>) returns (r: seq<byte>)
    ensures r == dst + Fields(vs)
  {
    r := dst;
    assert vs[0..] == vs;
    for i := 0 to |vs|
      invariant r + Fields(vs[i..]) == dst + Fields(vs)
    {
      assert vs[i..][1..] == vs[i + 1..];
      Regroup(r, Uvarint(vs[i]), Fields(vs[i + 1..]));
      r := r + Uvarint(vs[i]);
    }
    assert r + [] == r;
  }

  method AppendDataFrame(dst: seq<byte>, off: nat, sendTs: nat, payload: seq<byte>) returns (r: seq<byte>)
    ensures r == dst + Encode(Data(off, sendTs, payload))
  {
    var vs := [off, sendTs, |payload|];
    r := dst + Uvarint(FRAME_DATA);
    Regroup(r, Fields(vs), payload);
    Regroup(dst, Uvarint(FRAME_DATA), Fields(vs) + payload);
    r := AppendFields(r, vs);
    r := r + payload;
  }

  method AppendAckFrame(dst: seq<byte>, cum: nat, tsEcho: nat, tsPath: nat, window: nat, seqNo: nat,
                        ranges: seq<ByteRange>)
    returns (r: seq<byte>)
    ensures r == dst + Encode(Ack(cum, tsEcho, tsPath, window, seqNo, ranges))
  {
    var rs := ranges;
    if |rs| > MAX_ACK_RANGES {
      rs := rs[..MAX_ACK_RANGES];
    }
    var vs := [cum, tsEcho, tsPath, window, seqNo, |rs|];
    r := dst + Uvarint(FRAME_ACK);
    Regroup(r, Fields(vs), EncodeRanges(rs));
    Regroup(dst, Uvarint(FRAME_ACK), Fields(vs) + EncodeRanges(rs));
    r := AppendFields(r, vs);
    r := AppendRanges(r, rs);
  }

  method AppendRanges(dst: seq<byte>, rs: seq<ByteRange>) returns (r: seq<byte>)
    ensures r == dst + EncodeRanges(rs)
  {
    r := dst;
    assert rs[0..] == rs;
    for i := 0 to |rs|
      invariant r + EncodeRanges(rs[i..]) == dst + EncodeRanges(rs)
    {
      assert rs[i..][1..] == rs[i + 1..];
      var pair := [rs[i].start, rs[i].end];
      Regroup(r, Fields(pair), EncodeRanges(rs[i + 1..]));
      r := AppendFields(r, pair);
    }
    assert r + [] == r;
  }

  method AppendCtrlFrame(dst: seq<byte>, kind: byte, body: seq<byte>) returns (r: seq<byte>)
    ensures r == dst + Encode(Ctrl(kind, body))
  {
    var vs := [|body|];
    r := dst + Uvarint(kind);
    Regroup(r, Fields(vs), body);
    Regroup(dst, Uvarint(kind), Fields(vs) + body);
    r := AppendFields(r, vs);
    r := r + body;
  }

  // ---------- decoding ----------

  /** A value taken off the front of the input, and the rest; None for a violation or an early end. */
  datatype Taken<T> = Taken(v: T, rest: seq<byte>)

  function TakeUvarint(b: seq<byte>): (r: Option<Taken<nat>>)
    ensures r.Some? ==> |r.value.rest| < |b|
  {
    match Decode(b)
    case Value(v, size) => DecodedIs64Bits(b); Some(Taken(v, b[size..]))
    case _ => None
  }

  function TakeBytes(b: seq<byte>, n: nat): Option<Taken<seq<byte>>> {
    if n <= |b| then Some(Taken(b[..n], b[n..])) else None
  }

  /** n fields one after another. */
  function TakeFields(b: seq<byte>, n: nat): (r: Option<Taken<seq<nat>>>)
    ensures r.Some? ==> |r.value.v| == n && |r.value.rest| <= |b|
    decreases n
  {
    if n == 0 then Some(Taken([], b))
    else match TakeUvarint(b)
      case None => None
      case Some(Taken(v, b1)) =>
        match TakeFields(b1, n - 1)
        case None => None
        case Some(Taken(vs, b2)) => Some(Taken([v] + vs, b2))
  }

  function TakeRanges(b: seq<byte>, n: nat): (r: Option<Taken<seq<ByteRange>>>)
    ensures r.Some? ==> |r.value.v| == n && |r.value.rest| <= |b|
    decreases n
  {
    if n == 0 then Some(Taken([], b))
    else match TakeFields(b, 2)
      case None => None
      case Some(Taken(vs, b1)) =>
        if vs[1] <= vs[0] then None
        else match TakeRanges(b1, n - 1)
          case None => None
          case Some(Taken(rs, b2)) => Some(Taken([ByteRange(vs[0], vs[1])] + rs, b2))
  }

  function TakeData(b: seq<byte>): Option<Taken<Frame>> {
    match TakeFields(b, 3)
    case None => None
    case Some(Taken(vs, b1)) =>
      if vs[2] > MAX_FRAME_PAYLOAD then None
      else match TakeBytes(b1, vs[2])
        case None => None
        case Some(Taken(payload, b2)) => Some(Taken(Data(vs[0], vs[1], payload), b2))
  }

  function TakeAck(b: seq<byte>): Option<Taken<Frame>> {
    match TakeFields(b, 6)
    case None => None
    case Some(Taken(vs, b1)) =>
      if vs[5] > MAX_ACK_RANGES then None
      else match TakeRanges(b1, vs[5])
        case None => None
        case Some(Taken(rs, b2)) => Some(Taken(Ack(vs[0], vs[1], vs[2], vs[3], vs[4], rs), b2))
  }

  function TakeCtrl(kind: byte, b: seq<byte>): Option<Taken<Frame>> {
    match TakeFields(b, 1)
    case None => None
    case Some(Taken(vs, b1)) =>
      if vs[0] > MAX_CTRL_BODY then None
      else match TakeBytes(b1, vs[0])
        case None => None
        case Some(Taken(body, b2)) => Some(Taken(Ctrl(kind, body), b2))
  }

  function TakeBody(kind: byte, b: seq<byte>): Option<Taken<Frame>> {
    if kind == FRAME_DATA then TakeData(b)
    else if kind == FRAME_ACK then TakeAck(b)
    else if FIRST_CTRL <= kind <= LAST_CTRL then TakeCtrl(kind, b)
    else None
  }

  /** The type field is narrowed to a byte before it is looked at. */
  function TakeFrame(b: seq<byte>): Option<Taken<Frame>> {
    match TakeUvarint(b)
    case None => None
    case Some(Taken(t, b1)) => TakeBody(t % 256, b1)
  }

  datatype Outcome = Eof | Bad | Got(f: Frame, rest: seq<byte>)

  /** The next frame; a clean end only between frames. */
  function Next(b: seq<byte>): Outcome {
    if b == [] then Eof
    else match TakeFrame(b)
      case None => Bad
      case Some(Taken(f, rest)) => Got(f, rest)
  }

  // ---------- round trip ----------

  predicate SixtyFour(vs: seq<nat>) {
    vs != [] ==> vs[0] < TWO_TO_64 && SixtyFour(vs[1..])
  }

  predicate GoodRanges(rs: seq<ByteRange>) {
    rs != [] ==> rs[0].start < rs[0].end < TWO_TO_64 && GoodRanges(rs[1..])
  }

  /** What an endpoint may send: 64-bit fields, non-empty ranges, a payload or a body of at most 64 KiB. */
  predicate Encodable(f: Frame) {
    match f
    case Data(off, sendTs, payload) => SixtyFour([off, sendTs]) && |payload| <= MAX_FRAME_PAYLOAD
    case Ack(cum, tsEcho, tsPath, window, seqNo, ranges) =>
      SixtyFour([cum, tsEcho, tsPath, window, seqNo]) && GoodRanges(CutRanges(ranges))
    case Ctrl(kind, body) => FIRST_CTRL <= kind <= LAST_CTRL && |body| <= MAX_CTRL_BODY
  }

  /** The frame with its ranges cut to as many as fit. */
  function Cut(f: Frame): Frame {
    match f
    case Ack(_, _, _, _, _, ranges) => f.(ranges := CutRanges(ranges))
    case _ => f
  }

  lemma UvarintBack(v: nat, rest: seq<byte>)
    requires v < TWO_TO_64
    ensures TakeUvarint(Uvarint(v) + rest) == Some(Taken(v, rest))
  {
    RoundTrip(v, rest);
    assert (Uvarint(v) + rest)[|Uvarint(v)|..] == rest;
  }

  lemma {:induction false} FieldsBack(vs: seq<nat>, rest: seq<byte>)
    requires SixtyFour(vs)
    ensures TakeFields(Fields(vs) + rest, |vs|) == Some(Taken(vs, rest))
    decreases |vs|
  {
    if vs == [] {
      assert Fields(vs) + rest == rest;
    } else {
      FieldsBack(vs[1..], rest);
      UvarintBack(vs[0], Fields(vs[1..]) + rest);
      Regroup(Uvarint(vs[0]), Fields(vs[1..]), rest);
      assert [vs[0]] + vs[1..] == vs;
    }
  }

  lemma PairBack(r: ByteRange, rest: seq<byte>)
    requires r.start < r.end < TWO_TO_64
    ensures TakeFields(Fields([r.start, r.end]) + rest, 2) == Some(Taken([r.start, r.end], rest))
  {
    var vs := [r.start, r.end];
    assert vs[1..] == [r.end] && vs[1..][1..] == [];
    FieldsBack(vs, rest);
  }

  lemma FirstRangeBack(rs: seq<ByteRange>, rest: seq<byte>)
    requires rs != [] && GoodRanges(rs)
    requires TakeRanges(EncodeRanges(rs[1..]) + rest, |rs| - 1) == Some(Taken(rs[1..], rest))
    ensures TakeRanges(EncodeRanges(rs) + rest, |rs|) == Some(Taken(rs, rest))
  {
    var tail := EncodeRanges(rs[1..]) + rest;
    PairBack(rs[0], tail);
    Regroup(Fields([rs[0].start, rs[0].end]), EncodeRanges(rs[1..]), rest);
    assert EncodeRanges(rs) + rest == Fields([rs[0].start, rs[0].end]) + tail;
    assert [rs[0]] + rs[1..] == rs;
  }

  lemma {:induction false} RangesBack(rs: seq<ByteRange>, rest: seq<byte>)
    requires GoodRanges(rs)
    ensures TakeRanges(EncodeRanges(rs) + rest, |rs|) == Some(Taken(rs, rest))
    decreases |rs|
  {
    if rs == [] {
      assert EncodeRanges(rs) + rest == rest;
    } else {
      RangesBack(rs[1..], rest);
      FirstRangeBack(rs, rest);
    }
  }

  lemma {:induction false} SixtyFourAppend(vs: seq<nat>, v: nat)
    requires SixtyFour(vs) && v < TWO_TO_64
    ensures SixtyFour(vs + [v])
  {
    if vs == [] {
      assert vs + [v] == [v];
    } else {
      SixtyFourAppend(vs[1..], v);
      assert (vs + [v])[1..] == vs[1..] + [v];
    }
  }

  lemma BytesBack(vs: seq<nat>, n: nat, tail: seq<byte>, rest: seq<byte>)
    requires SixtyFour(vs) && n < TWO_TO_64
    ensures TakeFields(Fields(vs + [n]) + tail + rest, |vs| + 1) == Some(Taken(vs + [n], tail + rest))
  {
    SixtyFourAppend(vs, n);
    FieldsBack(vs + [n], tail + rest);
    Regroup(Fields(vs + [n]), tail, rest);
  }

  lemma DataBack(off: nat, sendTs: nat, payload: seq<byte>, rest: seq<byte>)
    requires Encodable(Data(off, sendTs, payload))
    ensures TakeData(BodyOf(Data(off, sendTs, payload)) + rest) == Some(Taken(Data(off, sendTs, payload), rest))
  {
    assert [off, sendTs] + [|payload|] == [off, sendTs, |payload|];
    BytesBack([off, sendTs], |payload|, payload, rest);
    assert (payload + rest)[..|payload|] == payload && (payload + rest)[|payload|..] == rest;
  }

  lemma AckBack(f: Frame, rest: seq<byte>)
    requires f.Ack? && Encodable(f)
    ensures TakeAck(BodyOf(f) + rest) == Some(Taken(Cut(f), rest))
  {
    var cut := CutRanges(f.ranges);
    var vs := [f.cum, f.tsEcho, f.tsPath, f.window, f.seqNo];
    assert vs + [|cut|] == [f.cum, f.tsEcho, f.tsPath, f.window, f.seqNo, |cut|];
    BytesBack(vs, |cut|, EncodeRanges(cut), rest);
    RangesBack(cut, rest);
  }

  lemma CtrlBack(kind: byte, bytes: seq<byte>, rest: seq<byte>)
    requires Encodable(Ctrl(kind, bytes))
    ensures TakeCtrl(kind, BodyOf(Ctrl(kind, bytes)) + rest) == Some(Taken(Ctrl(kind, bytes), rest))
  {
    assert [] + [|bytes|] == [|bytes|];
    BytesBack([], |bytes|, bytes, rest);
    assert (bytes + rest)[..|bytes|] == bytes && (bytes + rest)[|bytes|..] == rest;
  }

  lemma FieldsCons(v: nat, vs: seq<nat>)
    ensures Fields([v] + vs) == Uvarint(v) + Fields(vs)
  {
    assert ([v] + vs)[1..] == vs;
  }

  lemma ThreeFields(a: nat, b: nat, c: nat, more: seq<nat>)
    ensures Fields([a, b, c] + more) == Uvarint(a) + Uvarint(b) + Uvarint(c) + Fields(more)
  {
    assert [a, b, c] + more == [a] + ([b] + ([c] + more));
    FieldsCons(a, [b] + ([c] + more));
    FieldsCons(b, [c] + more);
    FieldsCons(c, more);
  }

  lemma SmallFields(a: byte, b: byte, c: byte)
    requires a < 128 && b < 128 && c < 128
    ensures Fields([a, b, c]) == [a, b, c]
  {
    ThreeFields(a, b, c, []);
    assert [a, b, c] + [] == [a, b, c];
  }

  lemma WindowFields()
    ensures Fields([1024, 0, 0]) == [0x80, 0x08, 0, 0]
  {
    ThreeFields(1024, 0, 0, []);
    assert [1024, 0, 0] + [] == [1024, 0, 0];
    assert Uvarint(1024) == [0x80, 0x08];
  }

  /** DATA and control frames that the two implementations share as test vectors (js/test/frame.test.ts:50-101). */
  lemma KnownFrames()
    ensures Encode(Data(5, 11, [0x68, 0x65, 0x6c, 0x6c, 0x6f])) == [1, 5, 11, 5, 0x68, 0x65, 0x6c, 0x6c, 0x6f]
    ensures Encode(Ctrl(4, [8, 7])) == [4, 2, 8, 7]
  {
    var hello: seq<byte> := [0x68, 0x65, 0x6c, 0x6c, 0x6f];
    SmallFields(5, 11, 5);
    assert BodyOf(Data(5, 11, hello)) == [5, 11, 5] + hello;
    FieldsCons(2, []);
    assert [2] + [] == [2];
    assert BodyOf(Ctrl(4, [8, 7])) == [2] + [8, 7];
  }

  /** An acknowledgement of theirs. */
  lemma KnownAck()
    ensures Encode(Ack(5, 11, 1, 1024, 0, [])) == [2, 5, 11, 1, 0x80, 0x08, 0, 0]
  {
    SmallFields(5, 11, 1);
    WindowFields();
    ThreeFields(5, 11, 1, [1024, 0, 0]);
    assert [5, 11, 1] + [1024, 0, 0] == [5, 11, 1, 1024, 0, 0];
    assert BodyOf(Ack(5, 11, 1, 1024, 0, [])) == [5, 11, 1] + [0x80, 0x08, 0, 0];
  }

  /** The ranges of such a vector, but for the last. */
  lemma KnownRanges()
    ensures EncodeRanges([ByteRange(100, 200), ByteRange(300, 350)]) == [0x64, 0xc8, 0x01, 0xac, 0x02, 0xde, 0x02]
  {
    assert [ByteRange(100, 200), ByteRange(300, 350)][1..] == [ByteRange(300, 350)];
    TwoFields(100, 200);
    TwoFields(300, 350);
    assert Uvarint(100) == [0x64] && Uvarint(200) == [0xc8, 0x01];
    assert Uvarint(300) == [0xac, 0x02] && Uvarint(350) == [0xde, 0x02];
  }

  lemma TwoFields(a: nat, b: nat)
    ensures Fields([a, b]) == Uvarint(a) + Uvarint(b)
  {
    assert [a, b] == [a] + ([b] + []);
    FieldsCons(a, [b] + []);
    FieldsCons(b, []);
  }

  /** One frame comes back, with its ranges cut to 32, and exactly its bytes are used. */
  lemma FrameRoundTrip(f: Frame, rest: seq<byte>)
    requires Encodable(f)
    ensures Next(Encode(f) + rest) == Got(Cut(f), rest)
  {
    var b := BodyOf(f) + rest;
    Regroup(Uvarint(TypeOf(f)), BodyOf(f), rest);
    UvarintBack(TypeOf(f), b);
    TypeTaken(Encode(f) + rest, TypeOf(f), b);
    match f
    case Data(off, sendTs, payload) =>
      DataBack(off, sendTs, payload, rest);
      DataBody(b);
    case Ack(_, _, _, _, _, _) =>
      AckBack(f, rest);
      AckBody(b);
    case Ctrl(kind, bytes) =>
      CtrlBack(kind, bytes, rest);
      CtrlBody(kind, b);
  }

  /** Once its type field has been taken, only the body of a frame matters. */
  lemma TypeTaken(b: seq<byte>, kind: byte, body: seq<byte>)
    requires TakeUvarint(b) == Some(Taken<nat>.Taken(kind, body))
    ensures TakeFrame(b) == TakeBody(kind, body)
  {
    ByteStays(kind);
  }

  lemma ByteStays(kind: byte)
    ensures kind % 256 == kind
  {
  }

  lemma DataBody(body: seq<byte>)
    ensures TakeBody(FRAME_DATA, body) == TakeData(body)
  {
  }

  lemma AckBody(body: seq<byte>)
    ensures TakeBody(FRAME_ACK, body) == TakeAck(body)
  {
  }

  lemma CtrlBody(kind: byte, body: seq<byte>)
    requires FIRST_CTRL <= kind <= LAST_CTRL
    ensures TakeBody(kind, body) == TakeCtrl(kind, body)
  {
  }

  predicate AllEncodable(fs: seq<Frame>) {
    fs != [] ==> Encodable(fs[0]) && AllEncodable(fs[1..])
  }

  function EncodeAll(fs: seq<Frame>): seq<byte> {
    if fs == [] then [] else Encode(fs[0]) + EncodeAll(fs[1..])
  }

  function CutAll(fs: seq<Frame>): seq<Frame> {
    if fs == [] then [] else [Cut(fs[0])] + CutAll(fs[1..])
  }

  lemma NextShrinks(b: seq<byte>)
    ensures Next(b).Got? ==> |Next(b).rest| < |b|
  {
  }

  /** Every frame up to the end of the input, and whether that end is clean. */
  function ReadAll(b: seq<byte>): (seq<Frame>, bool)
    decreases |b|
  {
    NextShrinks(b);
    match Next(b)
    case Eof => ([], true)
    case Bad => ([], false)
    case Got(f, rest) => var (fs, clean) := ReadAll(rest); ([f] + fs, clean)
  }

  /** A list of frames of any kind comes back from the concatenation of its encodings, which it uses up. */
  lemma {:induction false} StreamRoundTrip(fs: seq<Frame>)
    requires AllEncodable(fs)
    ensures ReadAll(EncodeAll(fs)) == (CutAll(fs), true)
    decreases |fs|
  {
    if fs != [] {
      FrameRoundTrip(fs[0], EncodeAll(fs[1..]));
      StreamRoundTrip(fs[1..]);
    }
  }

  // ---------- decoding looks at nothing behind the frame ----------

  /** With more bytes behind the input, the same value is taken and the rest is longer by them. */
  ghost predicate Extends<T>(a: Option<Taken<T>>, b: Option<Taken<T>>, more: seq<byte>) {
    a.Some? ==> b == Some(Taken(a.value.v, a.value.rest + more))
  }

  lemma UvarintExtends(b: seq<byte>, more: seq<byte>)
    ensures Extends(TakeUvarint(b), TakeUvarint(b + more), more)
  {
    if Decode(b).Value? {
      DecodeExtends(b, 0, more);
      DecodedIs64Bits(b);
      var n := Decode(b).size;
      assert (b + more)[n..] == b[n..] + more;
    }
  }

  lemma {:induction false} FieldsExtend(b: seq<byte>, n: nat, more: seq<byte>)
    ensures Extends(TakeFields(b, n), TakeFields(b + more, n), more)
    decreases n
  {
    if n > 0 && TakeUvarint(b).Some? {
      UvarintExtends(b, more);
      FieldsExtend(TakeUvarint(b).value.rest, n - 1, more);
    }
  }

  lemma {:induction false} RangesExtend(b: seq<byte>, n: nat, more: seq<byte>)
    ensures Extends(TakeRanges(b, n), TakeRanges(b + more, n), more)
    decreases n
  {
    if n > 0 && TakeFields(b, 2).Some? {
      FieldsExtend(b, 2, more);
      RangesExtend(TakeFields(b, 2).value.rest, n - 1, more);
    }
  }

  lemma BytesExtend(b: seq<byte>, n: nat, more: seq<byte>)
    ensures Extends(TakeBytes(b, n), TakeBytes(b + more, n), more)
  {
    if n <= |b| {
      assert (b + more)[..n] == b[..n] && (b + more)[n..] == b[n..] + more;
    }
  }

  lemma DataExtends(b: seq<byte>, more: seq<byte>)
    ensures Extends(TakeData(b), TakeData(b + more), more)
  {
    FieldsExtend(b, 3, more);
    if TakeFields(b, 3).Some? {
      BytesExtend(TakeFields(b, 3).value.rest, TakeFields(b, 3).value.v[2], more);
    }
  }

  lemma AckExtends(b: seq<byte>, more: seq<byte>)
    ensures Extends(TakeAck(b), TakeAck(b + more), more)
  {
    FieldsExtend(b, 6, more);
    if TakeFields(b, 6).Some? {
      RangesExtend(TakeFields(b, 6).value.rest, TakeFields(b, 6).value.v[5], more);
    }
  }

  lemma CtrlExtends(kind: byte, b: seq<byte>, more: seq<byte>)
    ensures Extends(TakeCtrl(kind, b), TakeCtrl(kind, b + more), more)
  {
    FieldsExtend(b, 1, more);
    if TakeFields(b, 1).Some? {
      BytesExtend(TakeFields(b, 1).value.rest, TakeFields(b, 1).value.v[0], more);
    }
  }

  lemma NextExtends(b: seq<byte>, more: seq<byte>)
    ensures Next(b).Got? ==> Next(b + more) == Got(Next(b).f, Next(b).rest + more)
  {
    UvarintExtends(b, more);
    if TakeUvarint(b).Some? {
      var Taken(t, rest) := TakeUvarint(b).value;
      DataExtends(rest, more);
      AckExtends(rest, more);
      CtrlExtends(t % 256, rest, more);
    }
  }

  lemma CutShort(all: seq<byte>, k: nat)
    requires 0 < k < |all| && Next(all).Got? && Next(all).rest == []
    ensures Next(all[..k]) == Bad
  {
    NextExtends(all[..k], all[k..]);
    assert all[..k] + all[k..] == all;
  }

  /** A stream that ends inside a frame never yields that frame or a clean end. */
  lemma TruncatedIsBad(f: Frame, k: nat)
    requires Encodable(f) && 0 < k < |Encode(f)|
    ensures Next(Encode(f)[..k]) == Bad
  {
    FrameRoundTrip(f, []);
    assert Encode(f) + [] == Encode(f);
    CutShort(Encode(f), k);
  }

  // ---------- what comes out is what may go in ----------

  lemma {:induction false} FieldsFit(b: seq<byte>, n: nat)
    ensures TakeFields(b, n).Some? ==> SixtyFour(TakeFields(b, n).value.v)
    decreases n
  {
    if n > 0 && TakeUvarint(b).Some? {
      DecodedIs64Bits(b);
      var Taken(v, b1) := TakeUvarint(b).value;
      FieldsFit(b1, n - 1);
      if TakeFields(b1, n - 1).Some? {
        var vs := TakeFields(b1, n - 1).value.v;
        assert ([v] + vs)[1..] == vs;
      }
    }
  }

  lemma {:induction false} FitAt(vs: seq<nat>, i: nat)
    requires SixtyFour(vs) && i < |vs|
    ensures vs[i] < TWO_TO_64
  {
    if i > 0 {
      FitAt(vs[1..], i - 1);
    }
  }

  lemma {:induction false} RangesFit(b: seq<byte>, n: nat)
    ensures TakeRanges(b, n).Some? ==> GoodRanges(TakeRanges(b, n).value.v)
    decreases n
  {
    if n > 0 && TakeFields(b, 2).Some? {
      FieldsFit(b, 2);
      var Taken(vs, b1) := TakeFields(b, 2).value;
      FitAt(vs, 1);
      RangesFit(b1, n - 1);
      if vs[0] < vs[1] && TakeRanges(b1, n - 1).Some? {
        var rs := TakeRanges(b1, n - 1).value.v;
        assert ([ByteRange(vs[0], vs[1])] + rs)[1..] == rs;
      }
    }
  }

  lemma {:induction false} GoodIsNonEmpty(rs: seq<ByteRange>)
    requires GoodRanges(rs)
    ensures NonEmpty(rs)
  {
    if rs != [] {
      GoodIsNonEmpty(rs[1..]);
      assert forall i :: 1 <= i < |rs| ==> rs[i] == rs[1..][i - 1];
    }
  }

  lemma AckFits(b: seq<byte>)
    requires TakeAck(b).Some?
    ensures var f := TakeAck(b).value.v; f.Ack? && Encodable(f) && |f.ranges| <= MAX_ACK_RANGES
  {
    FieldsFit(b, 6);
    var Taken(vs, b1) := TakeFields(b, 6).value;
    RangesFit(b1, vs[5]);
    var fields := [vs[0], vs[1], vs[2], vs[3], vs[4]];
    assert fields == vs[..5];
    PrefixFits(vs, 5);
  }

  lemma {:induction false} PrefixFits(vs: seq<nat>, k: nat)
    requires SixtyFour(vs) && k <= |vs|
    ensures SixtyFour(vs[..k])
  {
    if k > 0 {
      PrefixFits(vs[1..], k - 1);
      assert vs[..k][1..] == vs[1..][..k - 1];
    }
  }

  lemma DataFits(b: seq<byte>)
    requires TakeData(b).Some?
    ensures TakeData(b).value.v.Data? && Encodable(TakeData(b).value.v)
  {
    FieldsFit(b, 3);
    var vs := TakeFields(b, 3).value.v;
    assert [vs[0], vs[1]] == vs[..2];
    PrefixFits(vs, 2);
  }

  /**
   * Whatever bytes come in, a decoded frame is one that may be sent, its ranges are non-empty and at most
   * 32, and encoding it again gives the same frame.
   */
  lemma DecodedIsEncodable(b: seq<byte>)
    requires Next(b).Got?
    ensures var f := Next(b).f;
      && Encodable(f) && Cut(f) == f && (f.Ack? ==> NonEmpty(f.ranges) && |f.ranges| <= MAX_ACK_RANGES)
      && Next(Encode(f) + Next(b).rest) == Got(f, Next(b).rest)
  {
    var Taken(t, b1) := TakeUvarint(b).value;
    var f := Next(b).f;
    if t % 256 == FRAME_DATA as int {
      DataFits(b1);
    } else if t % 256 == FRAME_ACK as int {
      AckFits(b1);
      GoodIsNonEmpty(f.ranges);
    }
    FrameRoundTrip(f, Next(b).rest);
  }

  // ---------- the reader ----------

  /** Of an integer at the front of all, i bytes are read: x so far, and the weight of the next seven bits. */
  ghost predicate Reading(all: seq<byte>, rest: seq<byte>, x: nat, weight: nat, i: nat) {
    weight > 0 && i <= |all| && rest == all[i..] && Decode(all) == Finish(x, weight, i, DecodeAt(rest, i))
  }

  lemma StartsReading(all: seq<byte>)
    ensures Reading(all, all, 0, 1, 0)
  {
    assert all[0..] == all;
  }

  lemma KeepsReading(all: seq<byte>, rest: seq<byte>, x: nat, weight: nat, i: nat)
    requires i < 10 && rest != [] && rest[0] >= 128 && Reading(all, rest, x, weight, i)
    ensures if i == 9 then Decode(all) == Overflow
            else Reading(all, rest[1..], x + weight * (rest[0] % 128), weight * 128, i + 1)
  {
    if i < 9 {
      FinishStep(x, weight, i, rest);
      DropOneMore(all, i);
    }
  }

  lemma EndsReading(all: seq<byte>, rest: seq<byte>, x: nat, weight: nat, i: nat)
    requires i < 10 && rest != [] && rest[0] < 128 && Reading(all, rest, x, weight, i)
    ensures if i == 9 && rest[0] > 1 then TakeUvarint(all) == None
            else TakeUvarint(all) == Some(Taken<nat>.Taken(x + weight * rest[0], rest[1..]))
  {
    DropOneMore(all, i);
  }

  class FrameReader {
    /** What the path has delivered and nobody has read. */
    var input: seq<byte>

    constructor (input: seq<byte>)
      ensures this.input == input
    {
      this.input := input;
    }

    method ReadByte() returns (b: Option<byte>)
      modifies this
      ensures old(input) == [] ==> b == None && input == []
      ensures old(input) != [] ==> b == Some(old(input)[0]) && input == old(input)[1..]
    {
      if input == [] {
        return None;
      }
      b := Some(input[0]);
      input := input[1..];
    }

    /** The library's reading loop, byte by byte. */
    method ReadUvarint() returns (r: Option<nat>)
      modifies this
      ensures r.Some? ==> TakeUvarint(old(input)) == Some(Taken(r.value, input))
      ensures r == None ==> TakeUvarint(old(input)) == None && (old(input) == [] ==> input == [])
    {
      ghost var all := input;
      var x: nat, weight: nat := 0, 1;
      StartsReading(all);
      for i := 0 to 10
        invariant if i < 10 then Reading(all, input, x, weight, i) else Decode(all) == Overflow
        invariant all == [] ==> input == []
      {
        ghost var rest := input;
        var b := ReadByte();
        if b == None {
          return None;
        }
        if b.value < 128 {
          EndsReading(all, rest, x, weight, i);
          if i == 9 && b.value > 1 {
            return None;
          }
          return Some(x + weight * b.value);
        }
        KeepsReading(all, rest, x, weight, i);
        x := x + weight * (b.value % 128);
        weight := weight * 128;
      }
      r := None;
    }

    method ReadFull(n: nat) returns (r: Option<seq<byte>>)
      modifies this
      ensures r.Some? ==> TakeBytes(old(input), n) == Some(Taken(r.value, input))
      ensures r == None ==> TakeBytes(old(input), n) == None
    {
      if n > |input| {
        return None;
      }
      r := Some(input[..n]);
      input := input[n..];
    }

    /** n fields in a row. */
    method ReadFields(n: nat) returns (r: Option<seq<nat>>)
      modifies this
      ensures r.Some? ==> TakeFields(old(input), n) == Some(Taken(r.value, input))
      ensures r == None ==> TakeFields(old(input), n) == None
    {
      var vs := [];
      ghost var goal := TakeFields(input, n);
      AfterNothing(goal);
      for i := 0 to n
        invariant |vs| == i && goal == After(vs, TakeFields(input, n - i))
      {
        var v := ReadUvarint();
        if v == None {
          return None;
        }
        AfterOne(vs, v.value, TakeFields(input, n - i - 1));
        vs := vs + [v.value];
      }
      assert vs + [] == vs;
      r := Some(vs);
    }

    method ReadRanges(n: nat) returns (r: Option<seq<ByteRange>>)
      modifies this
      ensures r.Some? ==> TakeRanges(old(input), n) == Some(Taken(r.value, input))
      ensures r == None ==> TakeRanges(old(input), n) == None
    {
      var rs := [];
      ghost var goal := TakeRanges(input, n);
      AfterNothing(goal);
      for i := 0 to n
        invariant |rs| == i && goal == After(rs, TakeRanges(input, n - i))
      {
        var pair := ReadFields(2);
        if pair == None || pair.value[1] <= pair.value[0] {
          return None;
        }
        var range := ByteRange(pair.value[0], pair.value[1]);
        AfterOne(rs, range, TakeRanges(input, n - i - 1));
        rs := rs + [range];
      }
      assert rs + [] == rs;
      r := Some(rs);
    }

    method ReadData() returns (r: Option<Frame>)
      modifies this
      ensures r.Some? ==> TakeData(old(input)) == Some(Taken(r.value, input))
      ensures r == None ==> TakeData(old(input)) == None
    {
      var head := ReadFields(3);
      if head == None || head.value[2] > MAX_FRAME_PAYLOAD {
        return None;
      }
      var payload := ReadFull(head.value[2]);
      r := if payload == None then None else Some(Data(head.value[0], head.value[1], payload.value));
    }

    method ReadAck() returns (r: Option<Frame>)
      modifies this
      ensures r.Some? ==> TakeAck(old(input)) == Some(Taken(r.value, input))
      ensures r == None ==> TakeAck(old(input)) == None
    {
      var head := ReadFields(6);
      if head == None || head.value[5] > MAX_ACK_RANGES {
        return None;
      }
      var v := head.value;
      var ranges := ReadRanges(v[5]);
      r := if ranges == None then None else Some(Ack(v[0], v[1], v[2], v[3], v[4], ranges.value));
    }

    method ReadCtrl(kind: byte) returns (r: Option<Frame>)
      modifies this
      ensures r.Some? ==> TakeCtrl(kind, old(input)) == Some(Taken(r.value, input))
      ensures r == None ==> TakeCtrl(kind, old(input)) == None
    {
      var head := ReadFields(1);
      if head == None || head.value[0] > MAX_CTRL_BODY {
        return None;
      }
      var body := ReadFull(head.value[0]);
      r := if body == None then None else Some(Ctrl(kind, body.value));
    }

    /** The next frame; an end of the input counts as clean only where a frame could begin. */
    method NextFrame() returns (r: ReadResult)
      modifies this
      ensures match Next(old(input))
        case Eof => r == End && input == []
        case Bad => r == Violation
        case Got(f, rest) => r == One(f) && input == rest
    {
      var atEnd := input == [];
      var t := ReadUvarint();
      if t == None {
        return if atEnd then End else Violation;
      }
      var kind: byte := t.value % 256;
      var f: Option<Frame> := None;
      if kind == FRAME_DATA {
        f := ReadData();
      } else if kind == FRAME_ACK {
        f := ReadAck();
      } else if FIRST_CTRL <= kind <= LAST_CTRL {
        f := ReadCtrl(kind);
      }
      r := if f == None then Violation else One(f.value);
    }
  }

  datatype ReadResult = End | Violation | One(f: Frame)

  /** What has been read before, in front of what is still to be taken. */
  function After<T>(xs: seq<T>, t: Option<Taken<seq<T>>>): Option<Taken<seq<T>>> {
    match t
    case None => None
    case Some(Taken(ys, rest)) => Some(Taken(xs + ys, rest))
  }

  lemma DropOneMore(all: seq<byte>, i: nat)
    requires i < |all|
    ensures all[i..][1..] == all[i + 1..]
  {
  }

  lemma AfterNothing<T>(t: Option<Taken<seq<T>>>)
    ensures After([], t) == t
  {
    if t.Some? {
      assert [] + t.value.v == t.value.v;
    }
  }

  lemma AfterOne<T>(xs: seq<T>, x: T, t: Option<Taken<seq<T>>>)
    ensures After(xs, After([x], t)) == After(xs + [x], t)
  {
    if t.Some? {
      assert xs + ([x] + t.value.v) == xs + [x] + t.value.v;
    }
  }
}
