/**
 The Go frame codec (protocol/frame.go): a preamble of sixteen bytes, then
 header, payload and, under its flag, the MAC.
 */
module Frames {
  import opened Bytes
  import opened ByteStreams

  const MAGIC: u32 := 0x4549_5043
  const MAX_FRAME_SIZE: u32 := 0x10_0000
  const MAC_SIZE := 32
  const PROTOCOL_VERSION: u16 := 1
  const FIXED_SIZE := 16

  datatype Frame = Frame(version: u16, msgType: byte, flags: byte,
                         header: seq<byte>, payload: seq<byte>, mac: seq<byte>)

  datatype Error = ErrBadMagic | ErrBadVersion | ErrFrameTooLarge
                 | ErrReadPreamble | ErrReadHeader | ErrReadPayload | ErrReadMac

  /** FlagHMAC is bit 0. */
  predicate HasHmac(flags: byte) { flags % 2 == 1 }

  /** The size bound shared by Encode, Decode and SignableBytes. */
  predicate Fits(f: Frame) { |f.header| + |f.payload| <= MAX_FRAME_SIZE }

  function Preamble(version: u16, msgType: byte, flags: byte, headerLen: nat, payloadLen: nat): (p: seq<byte>)
    ensures |p| == FIXED_SIZE
  {
    ToBE(MAGIC, 4) + ToBE(version, 2) + [msgType, flags] + ToBE(headerLen, 4) + ToBE(payloadLen, 4)
  }

  function PreambleOf(f: Frame): (p: seq<byte>)
    ensures |p| == FIXED_SIZE
  {
    Preamble(f.version, f.msgType, f.flags, |f.header|, |f.payload|)
  }

  /** What Encode writes for the MAC: nothing when its length is not that of a MAC. */
  function MacBytes(f: Frame): seq<byte> {
    if HasHmac(f.flags) && |f.mac| == MAC_SIZE then f.mac else []
  }

  /** The wire form of a frame that fits. */
  function Wire(f: Frame): seq<byte> { PreambleOf(f) + f.header + f.payload + MacBytes(f) }

  /** SignableBytes, nil (empty) for a frame that does not fit. */
  function Signable(f: Frame): seq<byte> {
    if Fits(f) then PreambleOf(f) + f.header + f.payload else []
  }

  /** Frames Decode can produce. */
  predicate Canonical(f: Frame) {
    && f.version == PROTOCOL_VERSION
    && Fits(f)
    && |f.mac| == if HasHmac(f.flags) then MAC_SIZE else 0
  }

  type Parsed = (Result<Frame, Error>, seq<byte>)

  /** The result of Decode on a stream holding `s`, and what it leaves unread. */
  function Parse(s: seq<byte>): Parsed {
    match Take(s, FIXED_SIZE)
    case (None, rest) => (Err(ErrReadPreamble), rest)
    case (Some(p), rest) =>
      if FromBE(p[0..4]) != MAGIC then (Err(ErrBadMagic), rest)
      else if FromBE(p[4..6]) != PROTOCOL_VERSION then (Err(ErrBadVersion), rest)
      else if FromBE(p[8..12]) + FromBE(p[12..16]) > MAX_FRAME_SIZE then (Err(ErrFrameTooLarge), rest)
      else ParseBody(p[6], p[7], FromBE(p[8..12]), FromBE(p[12..16]), rest)
  }

  function ParseBody(msgType: byte, flags: byte, headerLen: nat, payloadLen: nat, s: seq<byte>): Parsed {
    match Take(s, headerLen)
    case (None, rest) => (Err(ErrReadHeader), rest)
    case (Some(header), s1) =>
      match Take(s1, payloadLen)
      case (None, rest) => (Err(ErrReadPayload), rest)
      case (Some(payload), s2) =>
        var f := Frame(PROTOCOL_VERSION, msgType, flags, header, payload, []);
        if !HasHmac(flags) then (Ok(f), s2)
        else
          match Take(s2, MAC_SIZE)
          case (None, rest) => (Err(ErrReadMac), rest)
          case (Some(mac), rest) => (Ok(f.(mac := mac)), rest)
  }

  // ------------------------------------------------------------------ methods

  lemma Assoc(a: seq<byte>, b: seq<byte>, c: seq<byte>)
    ensures a + b + c == a + (b + c)
  {
  }

  /** Frame.Encode. */
  method Encode(f: Frame, w: Sink) returns (r: Result<(), Error>)
    modifies w
    ensures r == if Fits(f) then Ok(()) else Err(ErrFrameTooLarge)
    ensures w.data == old(w.data) + if Fits(f) then Wire(f) else []
  {
    if |f.header| + |f.payload| > MAX_FRAME_SIZE {
      assert w.data == w.data + [];
      return Err(ErrFrameTooLarge);
    }
    hide Preamble, HasHmac;
    ghost var before, out := w.data, PreambleOf(f);
    w.Write(Preamble(f.version, f.msgType, f.flags, |f.header|, |f.payload|));
    w.Write(f.header);
    Assoc(before, out, f.header);
    out := out + f.header;
    w.Write(f.payload);
    Assoc(before, out, f.payload);
    out := out + f.payload;
    if HasHmac(f.flags) && |f.mac| == MAC_SIZE {
      w.Write(f.mac);
      Assoc(before, out, f.mac);
    } else {
      assert out + MacBytes(f) == out;
    }
    return Ok(());
  }

  /** Decode. */
  method Decode(r: Source) returns (res: Result<Frame, Error>)
    modifies r
    ensures (res, r.pending) == Parse(old(r.pending))
  {
    hide FromBE, ParseBody;
    var preamble := r.ReadFull(FIXED_SIZE);
    if preamble.None? {
      return Err(ErrReadPreamble);
    }
    var p := preamble.value;
    if FromBE(p[0..4]) != MAGIC {
      return Err(ErrBadMagic);
    }
    var version := FromBE(p[4..6]);
    if version != PROTOCOL_VERSION {
      return Err(ErrBadVersion);
    }
    var headerLen, payloadLen := FromBE(p[8..12]), FromBE(p[12..16]);
    if headerLen + payloadLen > MAX_FRAME_SIZE {
      return Err(ErrFrameTooLarge);
    }
    res := DecodeBody(r, p[6], p[7], headerLen, payloadLen);
  }

  /** Decode after the preamble: header, payload and MAC, each only when it has bytes. */
  method DecodeBody(r: Source, msgType: byte, flags: byte, headerLen: nat, payloadLen: nat)
    returns (res: Result<Frame, Error>)
    modifies r
    ensures (res, r.pending) == ParseBody(msgType, flags, headerLen, payloadLen, old(r.pending))
  {
    var f := Frame(PROTOCOL_VERSION, msgType, flags, [], [], []);
    if headerLen > 0 {
      var header := r.ReadFull(headerLen);
      if header.None? {
        return Err(ErrReadHeader);
      }
      f := f.(header := header.value);
    }
    if payloadLen > 0 {
      var payload := r.ReadFull(payloadLen);
      if payload.None? {
        return Err(ErrReadPayload);
      }
      f := f.(payload := payload.value);
    }
    if HasHmac(f.flags) {
      var mac := r.ReadFull(MAC_SIZE);
      if mac.None? {
        return Err(ErrReadMac);
      }
      f := f.(mac := mac.value);
    }
    return Ok(f);
  }

  /** Frame.SignableBytes. */
  method SignableBytes(f: Frame) returns (buf: seq<byte>)
    ensures buf == Signable(f)
  {
    if |f.header| + |f.payload| > MAX_FRAME_SIZE {
      return [];
    }
    buf := Preamble(f.version, f.msgType, f.flags, |f.header|, |f.payload|);
    buf := buf + f.header;
    buf := buf + f.payload;
  }

  // ------------------------------------------------------------------- lemmas

  /** The fields of a preamble, read back. */
  lemma PreambleFields(version: u16, msgType: byte, flags: byte, headerLen: nat, payloadLen: nat)
    requires headerLen + payloadLen <= MAX_FRAME_SIZE
    ensures var p := Preamble(version, msgType, flags, headerLen, payloadLen);
            && FromBE(p[0..4]) == MAGIC && FromBE(p[4..6]) == version
            && p[6] == msgType && p[7] == flags
            && FromBE(p[8..12]) == headerLen && FromBE(p[12..16]) == payloadLen
  {
    hide ToBE, FromBE, Pow256;
    var p := Preamble(version, msgType, flags, headerLen, payloadLen);
    PowersOf256();
    BEDecodesEncoding(MAGIC, 4);
    BEDecodesEncoding(version, 2);
    BEDecodesEncoding(headerLen, 4);
    BEDecodesEncoding(payloadLen, 4);
    var a, b, c, d, e := ToBE(MAGIC, 4), ToBE(version, 2), [msgType, flags], ToBE(headerLen, 4), ToBE(payloadLen, 4);
    assert p == a + b + c + d + e;
    assert p[0..4] == a && p[4..6] == b && p[8..12] == d && p[12..16] == e;
  }

  /** A preamble that passes Decode's checks is the one its fields give. */
  lemma PreambleRebuilt(p: seq<byte>)
    requires |p| == FIXED_SIZE && FromBE(p[0..4]) == MAGIC && FromBE(p[4..6]) == PROTOCOL_VERSION
    ensures p == Preamble(PROTOCOL_VERSION, p[6], p[7], FromBE(p[8..12]), FromBE(p[12..16]))
  {
    hide ToBE, FromBE;
    BEEncodesDecoding(p[0..4]);
    BEEncodesDecoding(p[4..6]);
    BEEncodesDecoding(p[8..12]);
    BEEncodesDecoding(p[12..16]);
    assert p == p[0..4] + p[4..6] + [p[6], p[7]] + p[8..12] + p[12..16];
  }

  /** A big-endian number, by its bytes. */
  ghost function Be(a: byte, b: byte, c: byte, d: byte): int {
    (a as int) * 0x100_0000 + (b as int) * 0x1_0000 + (c as int) * 0x100 + d
  }

  /**
   The wire form, byte by byte: "EIPC", the version, the type and flags, the two
   lengths, header, payload, and the MAC when flags are odd and it has 32 bytes.
   */
  lemma WireLayout(f: Frame)
    requires |f.header| + |f.payload| <= 1_048_576
    ensures var w, h, p := Wire(f), |f.header|, |f.payload|;
            && |w| == 16 + h + p + (if f.flags % 2 == 1 && |f.mac| == 32 then 32 else 0)
            && w[0] == 'E' as int && w[1] == 'I' as int && w[2] == 'P' as int && w[3] == 'C' as int
            && Be(0, 0, w[4], w[5]) == f.version && w[6] == f.msgType && w[7] == f.flags
            && Be(w[8], w[9], w[10], w[11]) == h && Be(w[12], w[13], w[14], w[15]) == p
            && w[16..16 + h] == f.header && w[16 + h..16 + h + p] == f.payload
            && (f.flags % 2 == 1 && |f.mac| == 32 ==> w[16 + h + p..] == f.mac)
  {
    hide FromBE, Preamble, ToBE;
    var p := PreambleOf(f);
    PreambleFields(f.version, f.msgType, f.flags, |f.header|, |f.payload|);
    BEReads(p[0..4]);
    BEReads(p[4..6]);
    BEReads(p[8..12]);
    BEReads(p[12..16]);
    assert forall i :: 0 <= i < 16 ==> Wire(f)[i] == p[i];
  }

  /** Which frames fit and which Decode can produce, in numbers. */
  lemma FrameLimits(f: Frame)
    ensures Fits(f) <==> |f.header| + |f.payload| <= 1_048_576
    ensures Canonical(f) <==> Fits(f) && f.version == 1 && |f.mac| == if f.flags % 2 == 1 then 32 else 0
  {
  }

  lemma ParsesBody(f: Frame, rest: seq<byte>)
    requires Canonical(f)
    ensures ParseBody(f.msgType, f.flags, |f.header|, |f.payload|, f.header + f.payload + MacBytes(f) + rest)
            == (Ok(f), rest)
  {
    var s1 := f.payload + MacBytes(f) + rest;
    var s2 := MacBytes(f) + rest;
    var s := f.header + f.payload + MacBytes(f) + rest;
    assert s[..|f.header|] == f.header && s[|f.header|..] == s1;
    assert s1[..|f.payload|] == f.payload && s1[|f.payload|..] == s2;
    if HasHmac(f.flags) {
      assert s2[..MAC_SIZE] == f.mac && s2[MAC_SIZE..] == rest;
    } else {
      assert s2 == rest;
    }
  }

  /** Decode undoes Encode in front of any continuation, for every frame Decode can produce. */
  lemma ParsesWire(f: Frame, rest: seq<byte>)
    requires Canonical(f)
    ensures Parse(Wire(f) + rest) == (Ok(f), rest)
  {
    hide FromBE, Preamble, ParseBody;
    var s := Wire(f) + rest;
    PreambleFields(f.version, f.msgType, f.flags, |f.header|, |f.payload|);
    assert s[..FIXED_SIZE] == PreambleOf(f);
    assert s[FIXED_SIZE..] == f.header + f.payload + MacBytes(f) + rest;
    ParsesBody(f, rest);
  }

  lemma BodyReencodes(msgType: byte, flags: byte, headerLen: nat, payloadLen: nat, s: seq<byte>)
    requires headerLen + payloadLen <= MAX_FRAME_SIZE
    ensures var r := ParseBody(msgType, flags, headerLen, payloadLen, s);
            r.0.Ok? ==>
              var f := r.0.value;
              && Canonical(f) && f.msgType == msgType && f.flags == flags
              && |f.header| == headerLen && |f.payload| == payloadLen
              && f.header + f.payload + MacBytes(f) + r.1 == s
  {
  }

  /** Whatever Decode consumes is exactly the encoding of the frame it returns. */
  lemma ParseConsumesWire(s: seq<byte>)
    requires Parse(s).0.Ok?
    ensures Canonical(Parse(s).0.value)
    ensures Wire(Parse(s).0.value) + Parse(s).1 == s
  {
    hide FromBE, Preamble, ParseBody;
    var p, body := s[..FIXED_SIZE], s[FIXED_SIZE..];
    PreambleRebuilt(p);
    var f, rest := Parse(s).0.value, Parse(s).1;
    BodyReencodes(p[6], p[7], FromBE(p[8..12]), FromBE(p[12..16]), body);
    assert p == PreambleOf(f);
    assert Wire(f) + rest == p + (f.header + f.payload + MacBytes(f) + rest);
    assert s == p + body;
  }

  /**
   The exact domain of the round trip: a frame Encode accepts comes back, in
   front of a given continuation, if and only if Decode could have produced it.
   */
  lemma RoundTripDomain(f: Frame, rest: seq<byte>)
    requires Fits(f)
    ensures Parse(Wire(f) + rest) == (Ok(f), rest) <==> Canonical(f)
  {
    if Canonical(f) {
      ParsesWire(f, rest);
    }
    if Parse(Wire(f) + rest) == (Ok(f), rest) {
      ParseConsumesWire(Wire(f) + rest);
    }
  }

  /** The encoding is self-delimiting: no encoding extends another. */
  lemma WirePrefixFree(f: Frame, g: Frame, x: seq<byte>, y: seq<byte>)
    requires Canonical(f) && Canonical(g) && Wire(f) + x == Wire(g) + y
    ensures f == g && x == y
  {
    ParsesWire(f, x);
    ParsesWire(g, y);
  }

  /** The signed bytes are the encoding without its MAC. */
  lemma SignableIsWireLessMac(f: Frame)
    requires Fits(f)
    ensures Wire(f) == Signable(f) + MacBytes(f)
    ensures Signable(f) == Wire(f.(mac := []))
  {
  }

  /** The MAC covers every other field: equal signed bytes mean equal frames up to the MAC. */
  lemma SignableInjective(f: Frame, g: Frame)
    requires Fits(f) && Fits(g) && Signable(f) == Signable(g)
    ensures f.(mac := []) == g.(mac := [])
  {
    hide FromBE, Preamble;
    var s := Signable(f);
    PreambleFields(f.version, f.msgType, f.flags, |f.header|, |f.payload|);
    PreambleFields(g.version, g.msgType, g.flags, |g.header|, |g.payload|);
    assert PreambleOf(f) == s[..FIXED_SIZE] == PreambleOf(g);
    assert f.header == s[FIXED_SIZE..FIXED_SIZE + |f.header|] == g.header;
    assert f.payload == s[FIXED_SIZE + |f.header|..] == g.payload;
  }
}
