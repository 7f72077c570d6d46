/**
 The tensor-descriptor codec (protocol/tensor.go) and its binding to message
 payloads (protocol/tensor_message.go).
 */
module TensorCodec {
  import opened Bytes
  import opened ByteStreams
  import opened Tensors

  // ----------------------------------------------------------------- wire form

  /** A length-prefixed string; the length is truncated to 16 bits, as uint16(len(s)) is. */
  function StringField(s: bytes): bytes { ToBE(|s|, 2) + s }

  /** int64 values as eight big-endian bytes of their two's-complement pattern. */
  function Int64s(xs: seq<i64>): (bs: bytes)
    ensures |bs| == 8 * |xs|
  {
    if |xs| == 0 then [] else ToBE(AsU64(xs[0]), 8) + Int64s(xs[1..])
  }

  function StringFields(ss: seq<bytes>): bytes {
    if |ss| == 0 then [] else StringField(ss[0]) + StringFields(ss[1..])
  }

  function ClaimBytes(d: Descriptor): bytes {
    ToBE(|d.capabilities|, 2) + StringFields(d.capabilities) + StringField(d.modelDigest)
  }

  function SpanBytes(d: Descriptor): bytes {
    StringField(d.shmName) + (ToBE(d.offset, 8) + ToBE(d.size, 8)) + ClaimBytes(d)
  }

  /** What Encode refuses. */
  function EncodeCheck(d: Descriptor): Result<(), TensorError> {
    if |d.shape| == 0 || |d.shape| > MAX_DIMS then Err(ErrDims)
    else if |d.strides| != |d.shape| then Err(ErrStrides)
    else if |d.capabilities| > MAX_CAPS then Err(ErrCaps)
    else Ok(())
  }

  /** The bytes Encode writes. */
  function TensorBytes(d: Descriptor): bytes
    requires EncodeCheck(d).Ok?
  {
    [d.dtype, |d.shape|] + Int64s(d.shape) + Int64s(d.strides) + SpanBytes(d)
  }

  // -------------------------------------------------------------------- reading

  /** A value read off the front of a stream, or the error that stopped it; and what is left unread. */
  datatype Step<+T> = Got(value: T, rest: bytes) | Failed(error: TensorError, rest: bytes)

  function ReadBytes(s: bytes, n: nat): (r: Step<bytes>)
    ensures r.Got? ==> |r.value| == n && r.value + r.rest == s
    ensures r.Failed? <==> n > |s|
    ensures r.Failed? ==> r.rest == []
  {
    match Take(s, n)
    case (Some(b), rest) => Got(b, rest)
    case (None, rest) => Failed(ErrRead, rest)
  }

  function IntsOf(raw: bytes): (xs: seq<i64>)
    ensures |xs| == |raw| / 8
  {
    if |raw| < 8 then [] else [I64Of(raw[..8])] + IntsOf(raw[8..])
  }

  function U64Of(b: bytes): u64
    requires |b| == 8
  {
    PowersOf256();
    FromBEBound(b);
    FromBE(b)
  }

  function I64Of(b: bytes): i64
    requires |b| == 8
  {
    AsI64(U64Of(b))
  }

  function ReadInts(s: bytes, n: nat): Step<seq<i64>> {
    match ReadBytes(s, n * 8)
    case Got(raw, rest) => Got(IntsOf(raw), rest)
    case Failed(e, rest) => Failed(e, rest)
  }

  /** readStringField. */
  function ReadString(s: bytes, max: nat): Step<bytes> {
    match ReadBytes(s, 2)
    case Failed(e, rest) => Failed(e, rest)
    case Got(ln, s1) =>
      if FromBE(ln) > max then Failed(ErrTooLarge, s1) else ReadBytes(s1, FromBE(ln))
  }

  function ReadStrings(s: bytes, n: nat): Step<seq<bytes>>
    decreases n
  {
    if n == 0 then Got([], s)
    else
      match ReadString(s, MAX_CAP_LEN)
      case Failed(e, rest) => Failed(e, rest)
      case Got(c, s1) =>
        match ReadStrings(s1, n - 1)
        case Failed(e, rest) => Failed(e, rest)
        case Got(cs, s2) => Got([c] + cs, s2)
  }

  function ReadClaims(d: Descriptor, s: bytes): Step<Descriptor> {
    match ReadBytes(s, 2)
    case Failed(e, rest) => Failed(e, rest)
    case Got(n, s1) =>
      if FromBE(n) > MAX_CAPS then Failed(ErrTooLarge, s1)
      else
        match ReadStrings(s1, FromBE(n))
        case Failed(e, rest) => Failed(e, rest)
        case Got(caps, s2) =>
          match ReadString(s2, MAX_DIGEST)
          case Failed(e, rest) => Failed(e, rest)
          case Got(digest, s3) => Got(d.(capabilities := caps, modelDigest := digest), s3)
  }

  function ReadSpan(d: Descriptor, s: bytes): Step<Descriptor> {
    match ReadString(s, MAX_SHM_NAME)
    case Failed(e, rest) => Failed(e, rest)
    case Got(name, s1) =>
      match ReadBytes(s1, 16)
      case Failed(e, rest) => Failed(e, rest)
      case Got(b, s2) => ReadClaims(d.(shmName := name, offset := U64Of(b[0..8]), size := U64Of(b[8..16])), s2)
  }

  function Blank(dtype: byte, shape: seq<i64>, strides: seq<i64>): Descriptor {
    Descriptor(dtype, shape, strides, [], 0, 0, [], [])
  }

  /** DecodeTensor on a stream holding `s`. */
  function ReadTensor(s: bytes): Step<Descriptor> {
    match ReadBytes(s, 2)
    case Failed(e, rest) => Failed(e, rest)
    case Got(head, s1) =>
      var ndim := head[1];
      if ndim == 0 || ndim > MAX_DIMS then Failed(ErrTooLarge, s1)
      else
        match ReadInts(s1, ndim)
        case Failed(e, rest) => Failed(e, rest)
        case Got(shape, s2) =>
          match ReadInts(s2, ndim)
          case Failed(e, rest) => Failed(e, rest)
          case Got(strides, s3) => ReadSpan(Blank(head[0], shape, strides), s3)
  }

  /** `r` and the stream after it are what `step` says. */
  ghost predicate Matches<T>(r: Result<T, TensorError>, pending: bytes, step: Step<T>) {
    match step
    case Got(v, rest) => r == Ok(v) && pending == rest
    case Failed(e, rest) => r == Err(e) && pending == rest
  }

  // -------------------------------------------------------------------- methods

  method PutInt64s(buf: bytes, xs: seq<i64>) returns (out: bytes)
    ensures out == buf + Int64s(xs)
  {
    out := buf;
    var i := 0;
    while i < |xs|
      invariant 0 <= i <= |xs|
      invariant out + Int64s(xs[i..]) == buf + Int64s(xs)
    {
      assert xs[i..][1..] == xs[i + 1..];
      assert out + Int64s(xs[i..]) == out + ToBE(AsU64(xs[i]), 8) + Int64s(xs[i + 1..]);
      out := out + ToBE(AsU64(xs[i]), 8);
      i := i + 1;
    }
  }

  /** appendStringField. */
  method AppendStringField(buf: bytes, s: bytes) returns (out: bytes)
    ensures out == buf + StringField(s)
  {
    out := buf + ToBE(|s|, 2);
    out := out + s;
  }

  method PutStringFields(buf: bytes, ss: seq<bytes>) returns (out: bytes)
    ensures out == buf + StringFields(ss)
  {
    hide StringField;
    out := buf;
    var i := 0;
    while i < |ss|
      invariant 0 <= i <= |ss|
      invariant out + StringFields(ss[i..]) == buf + StringFields(ss)
    {
      assert ss[i..][1..] == ss[i + 1..];
      assert out + StringFields(ss[i..]) == out + StringField(ss[i]) + StringFields(ss[i + 1..]);
      out := AppendStringField(out, ss[i]);
      i := i + 1;
    }
  }

  /** TensorDescriptor.Encode. */
  method EncodeTensor(d: Descriptor, w: Sink) returns (r: Result<(), TensorError>)
    modifies w
    ensures r == EncodeCheck(d)
    ensures w.data == old(w.data) + if r.Ok? then TensorBytes(d) else []
  {
    hide Int64s, StringFields, StringField;
    if |d.shape| == 0 || |d.shape| > MAX_DIMS {
      return Err(ErrDims);
    }
    if |d.strides| != |d.shape| {
      return Err(ErrStrides);
    }
    var buf := PutInt64s([d.dtype, |d.shape|], d.shape);
    buf := PutInt64s(buf, d.strides);
    ghost var head := buf;
    buf := AppendStringField(buf, d.shmName);
    buf := buf + ToBE(d.offset, 8);
    buf := buf + ToBE(d.size, 8);
    if |d.capabilities| > MAX_CAPS {
      return Err(ErrCaps);
    }
    buf := buf + ToBE(|d.capabilities|, 2);
    buf := PutStringFields(buf, d.capabilities);
    buf := AppendStringField(buf, d.modelDigest);
    assert buf == head + SpanBytes(d);
    w.Write(buf);
    return Ok(());
  }

  method ReadInt64s(r: Source, n: nat) returns (res: Result<seq<i64>, TensorError>)
    modifies r
    ensures Matches(res, r.pending, ReadInts(old(r.pending), n))
  {
    hide I64Of;
    var raw := r.ReadFull(n * 8);
    if raw.None? {
      return Err(ErrRead);
    }
    var out := [];
    var i := 0;
    while i < n
      invariant 0 <= i <= n
      invariant out + IntsOf(raw.value[i * 8..]) == IntsOf(raw.value)
    {
      var tail := raw.value[i * 8..];
      assert tail[..8] == raw.value[i * 8..(i + 1) * 8] && tail[8..] == raw.value[(i + 1) * 8..];
      out := out + [I64Of(raw.value[i * 8..(i + 1) * 8])];
      i := i + 1;
    }
    assert raw.value[n * 8..] == [];
    assert out + IntsOf([]) == out;
    return Ok(out);
  }

  method ReadStringField(r: Source, max: nat) returns (res: Result<bytes, TensorError>)
    modifies r
    ensures Matches(res, r.pending, ReadString(old(r.pending), max))
  {
    hide FromBE;
    var ln := r.ReadFull(2);
    if ln.None? {
      return Err(ErrRead);
    }
    var n := FromBE(ln.value);
    if n > max {
      return Err(ErrTooLarge);
    }
    if n == 0 {
      return Ok([]);
    }
    var buf := r.ReadFull(n);
    if buf.None? {
      return Err(ErrRead);
    }
    return Ok(buf.value);
  }

  method ReadCapabilities(r: Source, n: nat) returns (res: Result<seq<bytes>, TensorError>)
    modifies r
    ensures Matches(res, r.pending, ReadStrings(old(r.pending), n))
  {
    hide ReadString;
    var caps := [];
    ghost var all := ReadStrings(r.pending, n);
    assert all.Got? ==> [] + all.value == all.value;
    var i := 0;
    while i < n
      invariant 0 <= i <= n
      invariant match ReadStrings(r.pending, n - i)
                case Got(cs, rest) => ReadStrings(old(r.pending), n) == Got(caps + cs, rest)
                case Failed(e, rest) => ReadStrings(old(r.pending), n) == Failed(e, rest)
    {
      var c := ReadStringField(r, MAX_CAP_LEN);
      if c.Err? {
        return Err(c.error);
      }
      ghost var more := ReadStrings(r.pending, n - i - 1);
      assert more.Got? ==> caps + ([c.value] + more.value) == caps + [c.value] + more.value;
      caps := caps + [c.value];
      i := i + 1;
    }
    assert caps + [] == caps;
    return Ok(caps);
  }

  method DecodeClaims(d: Descriptor, r: Source) returns (res: Result<Descriptor, TensorError>)
    modifies r
    ensures Matches(res, r.pending, ReadClaims(d, old(r.pending)))
  {
    hide FromBE, ReadString, ReadStrings;
    var ncapBuf := r.ReadFull(2);
    if ncapBuf.None? {
      return Err(ErrRead);
    }
    var ncap := FromBE(ncapBuf.value);
    if ncap > MAX_CAPS {
      return Err(ErrTooLarge);
    }
    var caps := ReadCapabilities(r, ncap);
    if caps.Err? {
      return Err(caps.error);
    }
    var digest := ReadStringField(r, MAX_DIGEST);
    if digest.Err? {
      return Err(digest.error);
    }
    return Ok(d.(capabilities := caps.value, modelDigest := digest.value));
  }

  /** DecodeTensor. */
  method DecodeTensor(r: Source) returns (res: Result<Descriptor, TensorError>)
    modifies r
    ensures Matches(res, r.pending, ReadTensor(old(r.pending)))
  {
    hide FromBE, ReadString, ReadInts, ReadClaims, U64Of;
    var head := r.ReadFull(2);
    if head.None? {
      return Err(ErrRead);
    }
    var ndim := head.value[1];
    if ndim == 0 || ndim > MAX_DIMS {
      return Err(ErrTooLarge);
    }
    var shape := ReadInt64s(r, ndim);
    if shape.Err? {
      return Err(shape.error);
    }
    var strides := ReadInt64s(r, ndim);
    if strides.Err? {
      return Err(strides.error);
    }
    var name := ReadStringField(r, MAX_SHM_NAME);
    if name.Err? {
      return Err(name.error);
    }
    var offSize := r.ReadFull(16);
    if offSize.None? {
      return Err(ErrRead);
    }
    var d := Blank(head.value[0], shape.value, strides.value).(
      shmName := name.value, offset := U64Of(offSize.value[0..8]), size := U64Of(offSize.value[8..16]));
    res := DecodeClaims(d, r);
  }

  // ------------------------------------------------------- decoding an encoding

  lemma ReadsFront(b: bytes, rest: bytes)
    ensures ReadBytes(b + rest, |b|) == Got(b, rest)
  {
    assert (b + rest)[..|b|] == b && (b + rest)[|b|..] == rest;
  }

  lemma I64RoundTrip(x: i64)
    ensures I64Of(ToBE(AsU64(x), 8)) == x
  {
    hide ToBE, FromBE, Pow256;
    PowersOf256();
    BEDecodesEncoding(AsU64(x), 8);
  }

  lemma {:induction false} IntsRoundTrip(xs: seq<i64>)
    ensures IntsOf(Int64s(xs)) == xs
  {
    hide I64Of, ToBE;
    if |xs| > 0 {
      var b := Int64s(xs);
      assert b[..8] == ToBE(AsU64(xs[0]), 8) && b[8..] == Int64s(xs[1..]);
      I64RoundTrip(xs[0]);
      IntsRoundTrip(xs[1..]);
    }
  }

  lemma ReadsInts(xs: seq<i64>, rest: bytes)
    ensures ReadInts(Int64s(xs) + rest, |xs|) == Got(xs, rest)
  {
    hide IntsOf, Int64s;
    ReadsFront(Int64s(xs), rest);
    IntsRoundTrip(xs);
  }

  lemma ReadsString(x: bytes, rest: bytes, max: nat)
    requires |x| <= max < 0x1_0000
    ensures ReadString(StringField(x) + rest, max) == Got(x, rest)
  {
    hide ToBE, FromBE, Pow256;
    PowersOf256();
    BEDecodesEncoding(|x|, 2);
    assert StringField(x) + rest == ToBE(|x|, 2) + (x + rest);
    ReadsFront(ToBE(|x|, 2), x + rest);
    ReadsFront(x, rest);
  }

  lemma {:induction false} ReadsStrings(xs: seq<bytes>, rest: bytes)
    requires forall x :: x in xs ==> |x| <= MAX_CAP_LEN
    ensures ReadStrings(StringFields(xs) + rest, |xs|) == Got(xs, rest)
  {
    hide ReadString, StringField;
    if |xs| > 0 {
      assert StringFields(xs) + rest == StringField(xs[0]) + (StringFields(xs[1..]) + rest);
      ReadsString(xs[0], StringFields(xs[1..]) + rest, MAX_CAP_LEN);
      ReadsStrings(xs[1..], rest);
      assert [xs[0]] + xs[1..] == xs;
    } else {
      assert xs == [] && StringFields(xs) + rest == rest;
    }
  }

  /** The size limits the decoder enforces on variable-length fields. */
  ghost predicate DecodeBounds(d: Descriptor) {
    && |d.shmName| <= 256 && |d.capabilities| <= 32
    && (forall c :: c in d.capabilities ==> |c| <= 128) && |d.modelDigest| <= 128
  }

  lemma ReadsClaims(d0: Descriptor, d: Descriptor, rest: bytes)
    requires DecodeBounds(d)
    ensures ReadClaims(d0, ClaimBytes(d) + rest)
         == Got(d0.(capabilities := d.capabilities, modelDigest := d.modelDigest), rest)
  {
    hide ToBE, FromBE, Pow256, ReadString, ReadStrings, StringFields, StringField;
    var s2 := StringField(d.modelDigest) + rest;
    var s1 := StringFields(d.capabilities) + s2;
    assert ClaimBytes(d) + rest == ToBE(|d.capabilities|, 2) + s1;
    PowersOf256();
    BEDecodesEncoding(|d.capabilities|, 2);
    ReadsFront(ToBE(|d.capabilities|, 2), s1);
    ReadsStrings(d.capabilities, s2);
    ReadsString(d.modelDigest, rest, MAX_DIGEST);
  }

  lemma U64RoundTrip(x: u64)
    ensures U64Of(ToBE(x, 8)) == x
  {
    hide ToBE, FromBE, Pow256;
    PowersOf256();
    BEDecodesEncoding(x, 8);
  }

  lemma ReadsSpan(d: Descriptor, rest: bytes)
    requires DecodeBounds(d)
    ensures ReadSpan(Blank(d.dtype, d.shape, d.strides), SpanBytes(d) + rest) == Got(d, rest)
  {
    hide ToBE, U64Of, ReadString, ReadClaims, ClaimBytes, StringField;
    var b := ToBE(d.offset, 8) + ToBE(d.size, 8);
    var s2 := ClaimBytes(d) + rest;
    assert SpanBytes(d) + rest == StringField(d.shmName) + (b + s2);
    ReadsString(d.shmName, b + s2, MAX_SHM_NAME);
    ReadsFront(b, s2);
    assert b[0..8] == ToBE(d.offset, 8) && b[8..16] == ToBE(d.size, 8);
    U64RoundTrip(d.offset);
    U64RoundTrip(d.size);
    ReadsClaims(Blank(d.dtype, d.shape, d.strides).(shmName := d.shmName, offset := d.offset, size := d.size), d, rest);
  }

  /** DecodeTensor undoes Encode in front of any continuation. */
  lemma DecodesEncoding(d: Descriptor, rest: bytes)
    requires EncodeCheck(d).Ok? && DecodeBounds(d)
    ensures ReadTensor(TensorBytes(d) + rest) == Got(d, rest)
  {
    hide ReadInts, ReadSpan, SpanBytes, Int64s;
    var head := [d.dtype, |d.shape|];
    var s3 := SpanBytes(d) + rest;
    var s2 := Int64s(d.strides) + s3;
    var s1 := Int64s(d.shape) + s2;
    assert TensorBytes(d) + rest == head + s1;
    ReadsFront(head, s1);
    ReadsInts(d.shape, s2);
    ReadsInts(d.strides, s3);
    ReadsSpan(d, rest);
  }

  // ------------------------------------------------------ encoding what was decoded

  lemma I64Rebuilt(b: bytes)
    requires |b| == 8
    ensures ToBE(AsU64(I64Of(b)), 8) == b
  {
    hide ToBE, FromBE;
    BEEncodesDecoding(b);
  }

  lemma {:induction false} IntsRebuilt(raw: bytes)
    requires |raw| % 8 == 0
    ensures Int64s(IntsOf(raw)) == raw
  {
    hide I64Of, ToBE;
    if |raw| >= 8 {
      I64Rebuilt(raw[..8]);
      IntsRebuilt(raw[8..]);
      assert IntsOf(raw)[1..] == IntsOf(raw[8..]);
    }
  }

  lemma IntsConsumed(s: bytes, n: nat)
    ensures var r := ReadInts(s, n); r.Got? ==> |r.value| == n && Int64s(r.value) + r.rest == s
  {
    hide IntsOf, Int64s;
    var b := ReadBytes(s, n * 8);
    if b.Got? {
      IntsRebuilt(b.value);
    }
  }

  lemma StringConsumed(s: bytes, max: nat)
    ensures var r := ReadString(s, max); r.Got? ==> |r.value| <= max && StringField(r.value) + r.rest == s
  {
    hide ToBE, FromBE;
    var b := ReadBytes(s, 2);
    if b.Got? {
      BEEncodesDecoding(b.value);
    }
  }

  lemma {:induction false} StringsConsumed(s: bytes, n: nat)
    ensures var r := ReadStrings(s, n);
            r.Got? ==> && |r.value| == n && (forall c :: c in r.value ==> |c| <= MAX_CAP_LEN)
                       && StringFields(r.value) + r.rest == s
    decreases n
  {
    hide ReadString, StringField;
    if n > 0 {
      StringConsumed(s, MAX_CAP_LEN);
      var r := ReadString(s, MAX_CAP_LEN);
      if r.Got? {
        StringsConsumed(r.rest, n - 1);
        var m := ReadStrings(r.rest, n - 1);
        if m.Got? {
          assert ([r.value] + m.value)[1..] == m.value;
          assert StringFields([r.value] + m.value) + m.rest == StringField(r.value) + (StringFields(m.value) + m.rest);
        }
      }
    } else {
      assert StringFields([]) + s == s;
    }
  }

  lemma ClaimsConsumed(d0: Descriptor, s: bytes)
    ensures var r := ReadClaims(d0, s);
            r.Got? ==>
              && r.value == d0.(capabilities := r.value.capabilities, modelDigest := r.value.modelDigest)
              && |r.value.capabilities| <= MAX_CAPS && |r.value.modelDigest| <= MAX_DIGEST
              && (forall c :: c in r.value.capabilities ==> |c| <= MAX_CAP_LEN)
              && ClaimBytes(r.value) + r.rest == s
  {
    hide ToBE, FromBE, ReadString, ReadStrings, StringFields, StringField;
    var n := ReadBytes(s, 2);
    if n.Got? && ReadClaims(d0, s).Got? {
      BEEncodesDecoding(n.value);
      StringsConsumed(n.rest, FromBE(n.value));
      var caps := ReadStrings(n.rest, FromBE(n.value));
      StringConsumed(caps.rest, MAX_DIGEST);
      var r := ReadClaims(d0, s);
      assert ClaimBytes(r.value) + r.rest
          == n.value + (StringFields(caps.value) + (StringField(r.value.modelDigest) + r.rest));
    }
  }

  lemma U64Rebuilt(b: bytes)
    requires |b| == 8
    ensures ToBE(U64Of(b), 8) == b
  {
    hide ToBE, FromBE;
    BEEncodesDecoding(b);
  }

  lemma SpanConsumed(d0: Descriptor, s: bytes)
    ensures var r := ReadSpan(d0, s);
            r.Got? ==>
              && DecodeBounds(r.value) && SpanBytes(r.value) + r.rest == s
              && r.value.dtype == d0.dtype && r.value.shape == d0.shape && r.value.strides == d0.strides
  {
    hide ToBE, U64Of, ReadString, ReadClaims, ClaimBytes, StringField;
    var name := ReadString(s, MAX_SHM_NAME);
    StringConsumed(s, MAX_SHM_NAME);
    if name.Got? {
      var b := ReadBytes(name.rest, 16);
      if b.Got? {
        U64Rebuilt(b.value[0..8]);
        U64Rebuilt(b.value[8..16]);
        assert b.value == b.value[0..8] + b.value[8..16];
        var d1 := d0.(shmName := name.value, offset := U64Of(b.value[0..8]), size := U64Of(b.value[8..16]));
        ClaimsConsumed(d1, b.rest);
        var r := ReadSpan(d0, s);
        if r.Got? {
          assert SpanBytes(r.value) + r.rest == StringField(name.value) + (b.value + (ClaimBytes(r.value) + r.rest));
        }
      }
    }
  }

  /** Whatever DecodeTensor consumes is exactly the encoding of the descriptor it returns. */
  lemma DecodeConsumesEncoding(s: bytes)
    requires ReadTensor(s).Got?
    ensures var d, rest := ReadTensor(s).value, ReadTensor(s).rest;
            EncodeCheck(d).Ok? && DecodeBounds(d) && TensorBytes(d) + rest == s
  {
    hide ReadInts, ReadSpan, SpanBytes, Int64s;
    var head := ReadBytes(s, 2);
    var ndim := head.value[1];
    IntsConsumed(head.rest, ndim);
    var shape := ReadInts(head.rest, ndim);
    IntsConsumed(shape.rest, ndim);
    var strides := ReadInts(shape.rest, ndim);
    SpanConsumed(Blank(head.value[0], shape.value, strides.value), strides.rest);
    var d, rest := ReadTensor(s).value, ReadTensor(s).rest;
    assert TensorBytes(d) + rest
        == [d.dtype, |d.shape|] + (Int64s(d.shape) + (Int64s(d.strides) + (SpanBytes(d) + rest)));
  }

  /** The exact domain of the round trip among descriptors Encode writes. */
  lemma TensorRoundTripDomain(d: Descriptor, rest: bytes)
    requires EncodeCheck(d).Ok?
    ensures ReadTensor(TensorBytes(d) + rest) == Got(d, rest) <==> DecodeBounds(d)
  {
    hide ReadTensor, TensorBytes;
    if DecodeBounds(d) {
      DecodesEncoding(d, rest);
    }
    if ReadTensor(TensorBytes(d) + rest) == Got(d, rest) {
      DecodeConsumesEncoding(TensorBytes(d) + rest);
    }
  }

  // ------------------------------------------------------------ message binding

  /** MessagePayload: payload and primary capability; `None` is the nil descriptor. */
  function MessagePayload(d: Option<Descriptor>): Result<(bytes, bytes), TensorError> {
    if d.None? then Err(ErrNoCapability)
    else
      match Check(d.value)
      case Err(e) => Err(e)
      case Ok(_) =>
        if |d.value.capabilities| == 0 then Err(ErrNoCapability)
        else
          match EncodeCheck(d.value)
          case Err(e) => Err(e)
          case Ok(_) => Ok((TensorBytes(d.value), d.value.capabilities[0]))
  }

  /** TensorFromPayload. */
  function TensorFromPayload(payload: bytes, capability: bytes): Result<Descriptor, TensorError> {
    match ReadTensor(payload)
    case Failed(e, _) => Err(e)
    case Got(d, _) =>
      match Check(d)
      case Err(e) => Err(e)
      case Ok(_) => if capability in d.capabilities then Ok(d) else Err(ErrCapabilityMismatch)
  }

  lemma AcceptedIsCodable(d: Descriptor)
    requires Accepted(d)
    ensures EncodeCheck(d).Ok? && DecodeBounds(d)
  {
    hide Running, Footprint, IsSha256Hex;
    forall c | c in d.capabilities ensures |c| <= MAX_CAP_LEN {
      var i :| 0 <= i < |d.capabilities| && d.capabilities[i] == c;
      assert CapOk(d.capabilities[i]);
    }
    DigestLength(d.modelDigest);
  }

  lemma DigestLength(s: bytes)
    ensures DigestOk(s) ==> |s| <= 71
  {
  }

  /** MessagePayload refuses exactly invalid descriptors, as Validate does, and those that claim nothing. */
  lemma PayloadRefusals(d: Option<Descriptor>)
    ensures MessagePayload(d).Ok? <==> d.Some? && Accepted(d.value) && d.value.capabilities != []
    ensures d.Some? && !Accepted(d.value) ==> MessagePayload(d) == Err(Check(d.value).error)
    ensures d.None? || (Accepted(d.value) && d.value.capabilities == []) ==> MessagePayload(d) == Err(ErrNoCapability)
  {
    hide Check, TensorBytes;
    if d.Some? && Accepted(d.value) {
      AcceptedIsCodable(d.value);
    }
  }

  /** What was attached comes out again for exactly the capabilities it claims. */
  lemma AttachExtract(d: Descriptor, capability: bytes)
    requires MessagePayload(Some(d)).Ok?
    ensures var (payload, primary) := MessagePayload(Some(d)).value;
            && |d.capabilities| > 0 && primary == d.capabilities[0]
            && TensorFromPayload(payload, capability)
               == if capability in d.capabilities then Ok(d) else Err(ErrCapabilityMismatch)
  {
    hide Check, TensorBytes, ReadTensor;
    AcceptedIsCodable(d);
    DecodesEncoding(d, []);
    assert TensorBytes(d) + [] == TensorBytes(d);
  }

  /**
   Nothing else can be extracted: a descriptor that comes out was encoded in
   the payload and claims the capability.
   */
  lemma ExtractedWasAttached(payload: bytes, capability: bytes)
    requires TensorFromPayload(payload, capability).Ok?
    ensures var d := TensorFromPayload(payload, capability).value;
            && Accepted(d) && capability in d.capabilities
            && EncodeCheck(d).Ok? && TensorBytes(d) <= payload
            && MessagePayload(Some(d)).Ok?
  {
    hide Check, TensorBytes, ReadTensor;
    DecodeConsumesEncoding(payload);
  }
}
