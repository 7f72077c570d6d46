/**
 The C SDK's frame codec (sdk/c/src/eipc_frame.c), proved to be the Go codec
 restricted to the SDK's fixed buffers.
 */
module CFrames {
  import opened Bytes
  import opened CMemory
  import opened Frames

  const MAX_HEADER := 1024
  const MAX_PAYLOAD := 4096
  const MAX_FRAME := 0x10_0000

  datatype Status = EIPC_OK | EIPC_ERR_NOMEM | EIPC_ERR_INVALID | EIPC_ERR_IO | EIPC_ERR_AUTH | EIPC_ERR_INTEGRITY
                  | EIPC_ERR_PROTOCOL | EIPC_ERR_FRAME_TOO_LARGE | EIPC_ERR_BAD_MAGIC | EIPC_ERR_BAD_VERSION
                  | EIPC_ERR_BUFFER

  /** What a size_t pointer points to. */
  class SizeT {
    var value: nat

    constructor ()
      ensures value == 0
    {
      value := 0;
    }
  }

  /** eipc_frame_t. */
  class CFrame {
    var version: u16
    var msgType: byte
    var flags: byte
    const header: array<byte>
    var headerLen: u32
    const payload: array<byte>
    var payloadLen: u32
    const mac: array<byte>

    constructor ()
      ensures Valid() && fresh(header) && fresh(payload) && fresh(mac)
    {
      header, payload, mac := new byte[MAX_HEADER], new byte[MAX_PAYLOAD], new byte[MAC_SIZE];
    }

    ghost predicate Valid() {
      && header.Length == MAX_HEADER && payload.Length == MAX_PAYLOAD && mac.Length == MAC_SIZE
      && header != payload && header != mac && payload != mac
    }

    /** memset(frame, 0, sizeof(*frame)). */
    method Zero()
      requires Valid()
      modifies this, header, payload, mac
      ensures InBounds() && View() == Frame(0, 0, 0, [], [], [])
      ensures Blank()
    {
      forall i | 0 <= i < header.Length { header[i] := 0; }
      forall i | 0 <= i < payload.Length { payload[i] := 0; }
      forall i | 0 <= i < mac.Length { mac[i] := 0; }
      version, msgType, flags, headerLen, payloadLen := 0, 0, 0, 0, 0;
    }

    ghost predicate InBounds()
      reads this
    {
      headerLen <= MAX_HEADER && payloadLen <= MAX_PAYLOAD
    }

    /** The frame the structure stands for; the MAC counts only under its flag. */
    ghost function View(): Frame
      requires Valid() && InBounds()
      reads this, header, payload, mac
    {
      Frame(version, msgType, flags, header[..headerLen], payload[..payloadLen],
            if HasHmac(flags) then mac[..] else [])
    }

    /** Nothing but zeros. */
    ghost predicate Blank()
      reads header, payload, mac
    {
      && (forall i :: 0 <= i < header.Length ==> header[i] == 0)
      && (forall i :: 0 <= i < payload.Length ==> payload[i] == 0)
      && (forall i :: 0 <= i < mac.Length ==> mac[i] == 0)
    }

    /** Nothing but zeros beyond what the lengths and the flag cover. */
    ghost predicate Clean()
      reads this, header, payload, mac
    {
      && (forall i :: headerLen <= i < header.Length ==> header[i] == 0)
      && (forall i :: payloadLen <= i < payload.Length ==> payload[i] == 0)
      && (!HasHmac(flags) ==> forall i :: 0 <= i < mac.Length ==> mac[i] == 0)
    }
  }

  /** The SDK's limits on a frame. */
  ghost predicate Holds(f: Frame) { |f.header| <= 1024 && |f.payload| <= 4096 }

  /** The sixteen preamble bytes, in the order of the C assignments. */
  method PutPreamble(buf: array<byte>, version: u16, msgType: byte, flags: byte, headerLen: u32, payloadLen: u32)
    requires FIXED_SIZE <= buf.Length
    modifies buf
    ensures buf[..FIXED_SIZE] == Preamble(version, msgType, flags, headerLen, payloadLen)
    ensures buf[FIXED_SIZE..] == old(buf[FIXED_SIZE..])
  {
    hide ToBE;
    ghost var tail := buf[FIXED_SIZE..];
    PutBE32(buf, 0, MAGIC);
    assert buf[..4] == ToBE(MAGIC, 4) && tail == buf[4..][12..] == buf[FIXED_SIZE..];
    PutBE16(buf, 4, version);
    assert tail == buf[6..][10..] == buf[FIXED_SIZE..];
    Memcpy(buf, 6, [msgType, flags]);
    assert tail == buf[8..][8..] == buf[FIXED_SIZE..];
    PutBE32(buf, 8, headerLen);
    assert tail == buf[12..][4..] == buf[FIXED_SIZE..];
    PutBE32(buf, 12, payloadLen);
  }

  /** Preamble, header and payload: the part both encoders share. */
  method PutSignable(frame: CFrame, buf: array<byte>) returns (pos: nat)
    requires frame.Valid() && frame.InBounds()
    requires buf != frame.header && buf != frame.payload && buf != frame.mac
    requires FIXED_SIZE + frame.headerLen + frame.payloadLen <= buf.Length
    modifies buf
    ensures pos == FIXED_SIZE + frame.headerLen + frame.payloadLen
    ensures buf[..pos] == PreambleOf(frame.View()) + frame.View().header + frame.View().payload
    ensures buf[pos..] == old(buf[pos..])
  {
    hide Preamble;
    ghost var before := buf[..];
    PutPreamble(buf, frame.version, frame.msgType, frame.flags, frame.headerLen, frame.payloadLen);
    assert buf[..][FIXED_SIZE..] == before[FIXED_SIZE..];
    pos := CopyField(buf, FIXED_SIZE, frame.header[..frame.headerLen], before);
    pos := CopyField(buf, pos, frame.payload[..frame.payloadLen], before);
  }

  /** A length-guarded memcpy that moves the write position. */
  method CopyField(buf: array<byte>, pos: nat, src: seq<byte>, ghost before: seq<byte>) returns (end: nat)
    requires pos + |src| <= buf.Length == |before| && buf[..][pos..] == before[pos..]
    modifies buf
    ensures end == pos + |src|
    ensures buf[..end] == old(buf[..pos]) + src && buf[..][end..] == before[end..]
  {
    end := pos;
    if |src| > 0 {
      Memcpy(buf, pos, src);
      end := pos + |src|;
      assert buf[..][end..] == before[pos..][|src|..] == before[end..];
    }
  }

  /** eipc_frame_encode, with any of its pointers possibly null. */
  method Encode(frame: CFrame?, buf: array?<byte>, bufSize: nat, outLen: SizeT?) returns (status: Status)
    requires frame != null ==> frame.Valid()
    requires buf != null ==> bufSize <= buf.Length
    requires frame != null && buf != null ==> buf != frame.header && buf != frame.payload && buf != frame.mac
    modifies buf, outLen
    ensures status == EIPC_ERR_INVALID <==> frame == null || buf == null || outLen == null
    ensures status != EIPC_ERR_INVALID ==>
              (status == EIPC_OK <==>
                 && frame.InBounds()
                 && Transmitted(frame.headerLen, frame.payloadLen, frame.flags) <= bufSize)
    ensures status == EIPC_OK ==>
              && outLen.value == |Wire(frame.View())| <= bufSize
              && buf[..] == Wire(frame.View()) + old(buf[..])[outLen.value..]
    ensures status !in {EIPC_OK, EIPC_ERR_INVALID} ==> status == EIPC_ERR_FRAME_TOO_LARGE
    ensures status != EIPC_OK && buf != null ==> buf[..] == old(buf[..])
    ensures status != EIPC_OK && outLen != null ==> outLen.value == old(outLen.value)
  {
    hide Preamble;
    if frame == null || buf == null || outLen == null {
      return EIPC_ERR_INVALID;
    }
    if frame.headerLen > MAX_HEADER || frame.payloadLen > MAX_PAYLOAD {
      return EIPC_ERR_FRAME_TOO_LARGE;
    }
    var total := FIXED_SIZE + frame.headerLen + frame.payloadLen;
    if HasHmac(frame.flags) {
      total := total + MAC_SIZE;
    }
    if total > bufSize || total > MAX_FRAME {
      return EIPC_ERR_FRAME_TOO_LARGE;
    }
    ghost var before := buf[..];
    var pos := PutSignable(frame, buf);
    assert buf[..][pos..] == before[pos..];
    if HasHmac(frame.flags) {
      pos := CopyField(buf, pos, frame.mac[..], before);
    }
    outLen.value := pos;
    assert buf[..pos] == Wire(frame.View());
    assert buf[..] == buf[..pos] + buf[..][pos..];
    return EIPC_OK;
  }

  /** The encoded size. */
  function Transmitted(headerLen: nat, payloadLen: nat, flags: byte): nat {
    FIXED_SIZE + headerLen + payloadLen + if HasHmac(flags) then MAC_SIZE else 0
  }

  /** eipc_frame_signable_bytes; zero bytes reported when it refuses. */
  method SignableBytes(frame: CFrame?, buf: array?<byte>, bufSize: nat) returns (n: nat)
    requires frame != null ==> frame.Valid()
    requires buf != null ==> bufSize <= buf.Length
    requires frame != null && buf != null ==> buf != frame.header && buf != frame.payload && buf != frame.mac
    modifies buf
    ensures n > 0 <==> && frame != null && buf != null && frame.InBounds()
                       && FIXED_SIZE + frame.headerLen + frame.payloadLen <= bufSize
    ensures n > 0 ==> n <= bufSize && buf[..n] == Signable(frame.View()) && buf[n..] == old(buf[..])[n..]
    ensures n == 0 && buf != null ==> buf[..] == old(buf[..])
  {
    if frame == null || buf == null {
      return 0;
    }
    if frame.headerLen > MAX_HEADER || frame.payloadLen > MAX_PAYLOAD {
      return 0;
    }
    var total := FIXED_SIZE + frame.headerLen + frame.payloadLen;
    if total > bufSize {
      return 0;
    }
    n := PutSignable(frame, buf);
  }

  // ------------------------------------------------------------------- decode

  function Read32(buf: seq<byte>, pos: nat): nat
    requires pos + 4 <= |buf|
  {
    (buf[pos] as int) * 0x100_0000 + (buf[pos + 1] as int) * 0x1_0000 + (buf[pos + 2] as int) * 0x100 + buf[pos + 3]
  }

  /** eipc_frame_decode, check by check: the frame it fills in, or its status. */
  function CParse(buf: seq<byte>): (r: Result<Frame, Status>)
    ensures if r.Ok? then Holds(r.value) else r.error !in {EIPC_OK, EIPC_ERR_INVALID, EIPC_ERR_IO, EIPC_ERR_NOMEM}
  {
    if |buf| < FIXED_SIZE then Err(EIPC_ERR_PROTOCOL)
    else if Read32(buf, 0) != MAGIC then Err(EIPC_ERR_BAD_MAGIC)
    else if (buf[4] as int) * 0x100 + buf[5] != PROTOCOL_VERSION then Err(EIPC_ERR_BAD_VERSION)
    else
      var headerLen, payloadLen := Read32(buf, 8), Read32(buf, 12);
      var end := FIXED_SIZE + headerLen + payloadLen;
      if headerLen > MAX_HEADER || payloadLen > MAX_PAYLOAD then Err(EIPC_ERR_FRAME_TOO_LARGE)
      else if end > |buf| then Err(EIPC_ERR_PROTOCOL)
      else if HasHmac(buf[7]) && end + MAC_SIZE > |buf| then Err(EIPC_ERR_PROTOCOL)
      else Ok(Frame(PROTOCOL_VERSION, buf[6], buf[7],
                    buf[FIXED_SIZE..FIXED_SIZE + headerLen], buf[FIXED_SIZE + headerLen..end],
                    if HasHmac(buf[7]) then buf[end..end + MAC_SIZE] else []))
  }

  /** eipc_frame_decode on a buffer, which may be null like the frame. */
  method Decode(buf: Option<seq<byte>>, frame: CFrame?) returns (status: Status)
    requires frame != null ==> frame.Valid()
    modifies frame, if frame == null then {} else {frame.header, frame.payload, frame.mac}
    ensures status == EIPC_ERR_INVALID <==> frame == null || buf.None?
    ensures frame != null && buf.Some? ==>
              match CParse(buf.value)
              case Ok(f) => status == EIPC_OK && frame.InBounds() && frame.View() == f && frame.Clean()
              case Err(e) => status == e
  {
    if buf.None? || frame == null {
      return EIPC_ERR_INVALID;
    }
    hide Read32, HasHmac, CFrame.Blank, CFrame.Clean;
    var b := buf.value;
    if |b| < FIXED_SIZE {
      return EIPC_ERR_PROTOCOL;
    }
    frame.Zero();
    if Read32(b, 0) != MAGIC {
      return EIPC_ERR_BAD_MAGIC;
    }
    frame.version := (b[4] as int) * 0x100 + b[5];
    if frame.version != PROTOCOL_VERSION {
      return EIPC_ERR_BAD_VERSION;
    }
    frame.msgType := b[6];
    frame.flags := b[7];
    frame.headerLen := Read32(b, 8);
    frame.payloadLen := Read32(b, 12);
    if frame.headerLen > MAX_HEADER {
      return EIPC_ERR_FRAME_TOO_LARGE;
    }
    if frame.payloadLen > MAX_PAYLOAD {
      return EIPC_ERR_FRAME_TOO_LARGE;
    }
    status := DecodeBody(b, frame);
  }

  /** The three bounds-checked copies at the end of eipc_frame_decode. */
  method DecodeBody(b: seq<byte>, frame: CFrame) returns (status: Status)
    requires frame.Valid() && frame.InBounds() && FIXED_SIZE <= |b| && frame.Blank()
    modifies frame.header, frame.payload, frame.mac
    ensures status == EIPC_OK <==> Transmitted(frame.headerLen, frame.payloadLen, frame.flags) <= |b|
    ensures status != EIPC_OK ==> status == EIPC_ERR_PROTOCOL
    ensures status == EIPC_OK ==> frame.Clean()
    ensures status == EIPC_OK ==>
              var h, end := FIXED_SIZE + frame.headerLen, FIXED_SIZE + frame.headerLen + frame.payloadLen;
              frame.View() == Frame(frame.version, frame.msgType, frame.flags, b[FIXED_SIZE..h], b[h..end],
                                    if HasHmac(frame.flags) then b[end..end + MAC_SIZE] else [])
  {
    var pos := FIXED_SIZE;
    var ok := ReadField(b, pos, frame.headerLen, frame.header);
    if !ok {
      return EIPC_ERR_PROTOCOL;
    }
    pos := pos + frame.headerLen;
    ok := ReadField(b, pos, frame.payloadLen, frame.payload);
    if !ok {
      return EIPC_ERR_PROTOCOL;
    }
    pos := pos + frame.payloadLen;
    if HasHmac(frame.flags) {
      if pos + MAC_SIZE > |b| {
        return EIPC_ERR_PROTOCOL;
      }
      Memcpy(frame.mac, 0, b[pos..pos + MAC_SIZE]);
      assert frame.mac[..] == b[pos..pos + MAC_SIZE];
    }
    status := EIPC_OK;
  }

  /** A length-guarded, bounds-checked memcpy out of the buffer. */
  method ReadField(b: seq<byte>, pos: nat, len: nat, dst: array<byte>) returns (ok: bool)
    requires pos <= |b| && len <= dst.Length
    modifies dst
    ensures ok <==> pos + len <= |b|
    ensures ok ==> dst[..len] == b[pos..pos + len] && dst[len..] == old(dst[len..])
  {
    if len > 0 {
      if pos + len > |b| {
        return false;
      }
      Memcpy(dst, 0, b[pos..pos + len]);
    }
    return true;
  }

  // ---------------------------------------------------------- agreement with Go

  lemma ReadsAgree(buf: seq<byte>)
    requires |buf| >= FIXED_SIZE
    ensures var p := buf[..FIXED_SIZE];
            && Read32(buf, 0) == FromBE(p[0..4]) && (buf[4] as int) * 0x100 + buf[5] == FromBE(p[4..6])
            && Read32(buf, 8) == FromBE(p[8..12]) && Read32(buf, 12) == FromBE(p[12..16])
  {
    hide FromBE;
    var p := buf[..FIXED_SIZE];
    BEReads(p[0..4]);
    BEReads(p[4..6]);
    BEReads(p[8..12]);
    BEReads(p[12..16]);
  }

  /** Where the two body parsers can differ: not at all, within the limits. */
  lemma BodiesAgree(buf: seq<byte>, headerLen: nat, payloadLen: nat)
    requires |buf| >= FIXED_SIZE
    ensures var end := FIXED_SIZE + headerLen + payloadLen;
            var r := ParseBody(buf[6], buf[7], headerLen, payloadLen, buf[FIXED_SIZE..]).0;
            && (r.Ok? <==> end + (if HasHmac(buf[7]) then MAC_SIZE else 0) <= |buf|)
            && (r.Ok? ==> r.value == Frame(PROTOCOL_VERSION, buf[6], buf[7],
                    buf[FIXED_SIZE..FIXED_SIZE + headerLen], buf[FIXED_SIZE + headerLen..end],
                    if HasHmac(buf[7]) then buf[end..end + MAC_SIZE] else []))
            && (r.Err? ==> r.error in {ErrReadHeader, ErrReadPayload, ErrReadMac})
  {
    var body := buf[FIXED_SIZE..];
    if headerLen + payloadLen <= |body| {
      assert body[..headerLen] == buf[FIXED_SIZE..FIXED_SIZE + headerLen];
      var s1 := body[headerLen..];
      assert s1[..payloadLen] == buf[FIXED_SIZE + headerLen..FIXED_SIZE + headerLen + payloadLen];
      var s2 := s1[payloadLen..];
      if HasHmac(buf[7]) && MAC_SIZE <= |s2| {
        var end := FIXED_SIZE + headerLen + payloadLen;
        assert s2[..MAC_SIZE] == buf[end..end + MAC_SIZE];
      }
    }
  }

  /**
   On every buffer the C decoder accepts exactly what the Go decoder accepts
   within the SDK's limits, with the same frame, and refuses for the same reason.
   */
  lemma DecodersAgree(buf: seq<byte>)
    ensures var go := Parse(buf).0;
            && (CParse(buf).Ok? <==> go.Ok? && Holds(go.value))
            && (CParse(buf).Ok? ==> CParse(buf) == Ok(go.value))
            && (CParse(buf) == Err(EIPC_ERR_BAD_MAGIC) <==> go == Err(ErrBadMagic))
            && (CParse(buf) == Err(EIPC_ERR_BAD_VERSION) <==> go == Err(ErrBadVersion))
            && (go == Err(ErrFrameTooLarge) ==> CParse(buf) == Err(EIPC_ERR_FRAME_TOO_LARGE))
            && (CParse(buf) == Err(EIPC_ERR_PROTOCOL) ==>
                  go.Err? && go.error in {ErrReadPreamble, ErrReadHeader, ErrReadPayload, ErrReadMac})
  {
    hide FromBE, Read32, ParseBody;
    if |buf| >= FIXED_SIZE {
      ReadsAgree(buf);
      BodiesAgree(buf, Read32(buf, 8), Read32(buf, 12));
    }
  }

  /** Each side reads what the other writes, for every frame both can hold. */
  lemma Interoperates(f: Frame, rest: seq<byte>)
    requires Canonical(f) && Holds(f)
    ensures CParse(Wire(f) + rest) == Ok(f)
  {
    hide CParse, Parse, Wire;
    ParsesWire(f, rest);
    DecodersAgree(Wire(f) + rest);
  }
}
