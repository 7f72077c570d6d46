/**
 The C SDK's way onto and off the wire (sdk/c/src/eipc_client.c and
 sdk/c/src/eipc_transport.c), and that the Go endpoints and the SDK accept each
 other's frames.
 */
module CClient {
  import opened Bytes
  import opened ByteStreams
  import opened CMemory
  import opened Frames
  import opened CFrames
  import opened Endpoint
  import Transport
  import Replay
  import Hmac

  /** EIPC_FRAME_BUF_SIZE. */
  const FRAME_BUF := FIXED_SIZE + MAX_HEADER + MAX_PAYLOAD + MAC_SIZE

  // -------------------------------------------------------------------- sending

  /** eipc_transport_send_frame. */
  method SendFrame(sock: Outgoing, frame: CFrame?) returns (status: Status)
    requires frame != null ==> frame.Valid()
    modifies sock
    ensures status == EIPC_ERR_INVALID <==> frame == null
    ensures frame != null ==> (status == EIPC_ERR_FRAME_TOO_LARGE <==> !frame.InBounds())
    ensures status !in {EIPC_OK, EIPC_ERR_IO} ==> sock.data == old(sock.data)
    ensures frame != null && frame.InBounds() ==>
              && status in {EIPC_OK, EIPC_ERR_IO}
              && old(sock.data) <= sock.data <= old(sock.data) + Transport.Packet(frame.View())
              && (status == EIPC_OK ==> sock.data == old(sock.data) + Transport.Packet(frame.View()))
  {
    hide Wire, ToBE, Transport.Packet;
    if frame == null {
      return EIPC_ERR_INVALID;
    }
    var encoded := new byte[FRAME_BUF];
    var encodedLen := new SizeT();
    status := CFrames.Encode(frame, encoded, FRAME_BUF, encodedLen);
    if status != EIPC_OK {
      return;
    }
    assert encoded[..encodedLen.value] == Wire(frame.View());
    PacketOf(frame.View());
    status := SendPrefixed(sock, encoded[..encodedLen.value]);
  }

  /** The length prefix, then the bytes, each sent whole or not. */
  method SendPrefixed(sock: Outgoing, encoded: seq<byte>) returns (status: Status)
    requires |encoded| <= FRAME_BUF
    modifies sock
    ensures status in {EIPC_OK, EIPC_ERR_IO}
    ensures old(sock.data) <= sock.data <= old(sock.data) + (ToBE(|encoded|, 4) + encoded)
    ensures status == EIPC_OK ==> sock.data == old(sock.data) + (ToBE(|encoded|, 4) + encoded)
  {
    hide ToBE;
    var prefix := new byte[4];
    PutBE32(prefix, 0, |encoded|);
    assert prefix[..] == prefix[..4] == ToBE(|encoded|, 4);
    Assoc(sock.data, ToBE(|encoded|, 4), encoded);
    var ok := sock.Write(prefix[..]);
    if !ok {
      return EIPC_ERR_IO;
    }
    ok := sock.Write(encoded);
    return if ok then EIPC_OK else EIPC_ERR_IO;
  }

  lemma PacketOf(f: Frame)
    requires Holds(f)
    ensures Transport.Packet(f) == ToBE(|Wire(f)|, 4) + Wire(f)
  {
  }

  /** The frame build_and_send puts on the wire. */
  function SdkFrame(key: seq<byte>, msgType: byte, header: seq<byte>, payload: seq<byte>): Frame {
    var f := Frame(PROTOCOL_VERSION, msgType, FLAG_HMAC, header, payload, []);
    f.(mac := Hmac.Mac(key, Signable(f)))
  }

  /** The structure as build_and_send fills it, before signing. */
  method FillFrame(msgType: byte, header: seq<byte>, payload: seq<byte>) returns (frame: CFrame)
    requires |header| <= MAX_HEADER && |payload| <= MAX_PAYLOAD
    ensures fresh(frame) && fresh(frame.header) && fresh(frame.payload) && fresh(frame.mac)
    ensures frame.Valid() && frame.InBounds()
    ensures frame.View() == Frame(PROTOCOL_VERSION, msgType, FLAG_HMAC, header, payload, frame.mac[..])
  {
    frame := new CFrame();
    frame.Zero();
    frame.version, frame.msgType, frame.flags := PROTOCOL_VERSION, msgType, FLAG_HMAC;
    Memcpy(frame.header, 0, header);
    frame.headerLen := |header|;
    if |payload| > 0 {
      Memcpy(frame.payload, 0, payload);
      frame.payloadLen := |payload|;
    }
    assert frame.header[..frame.headerLen] == header && frame.payload[..frame.payloadLen] == payload;
  }

  /** Sign the structure in place. */
  method SignFrame(frame: CFrame, key: seq<byte>, mallocOk: bool)
    requires frame.Valid() && frame.InBounds() && HasHmac(frame.flags)
    modifies frame.mac
    ensures frame.View() == old(frame.View()).(mac := Hmac.Mac(key, Signable(old(frame.View()))))
  {
    hide Signable, Hmac.Mac;
    var signable := new byte[FRAME_BUF];
    SignableLength(frame.View());
    var n := CFrames.SignableBytes(frame, signable, FRAME_BUF);
    assert n > 0;  // so EIPC_ERR_INTEGRITY is never returned
    Hmac.Sign(key, signable[..n], frame.mac, mallocOk);
  }

  lemma SignableLength(f: Frame)
    requires Holds(f)
    ensures |Signable(f)| == FIXED_SIZE + |f.header| + |f.payload| <= Hmac.STACK_DATA
  {
  }

  /**
   build_and_send; `header` is what eipc_header_to_json gave, which is shorter
   than the buffer it was given.
   */
  method BuildAndSend(sock: Outgoing, key: seq<byte>, msgType: byte, header: Result<seq<byte>, Status>,
                      payload: Option<seq<byte>>, mallocOk: bool)
    returns (status: Status)
    requires if header.Ok? then |header.value| < MAX_HEADER else header.error in {EIPC_ERR_INVALID, EIPC_ERR_BUFFER}
    modifies sock
    ensures header.Err? ==> status == header.error
    ensures header.Ok? ==> (status == EIPC_ERR_FRAME_TOO_LARGE <==> |Contents(payload)| > MAX_PAYLOAD)
    ensures status !in {EIPC_OK, EIPC_ERR_IO} ==> sock.data == old(sock.data)
    ensures header.Ok? && |Contents(payload)| <= MAX_PAYLOAD ==>
              var packet := Transport.Packet(SdkFrame(key, msgType, header.value, Contents(payload)));
              && status in {EIPC_OK, EIPC_ERR_IO}
              && old(sock.data) <= sock.data <= old(sock.data) + packet
              && (status == EIPC_OK ==> sock.data == old(sock.data) + packet)
  {
    hide Transport.Packet, SdkFrame, Signable, Hmac.Mac;
    if header.Err? {
      return header.error;
    }
    if payload.Some? && |payload.value| > MAX_PAYLOAD {
      return EIPC_ERR_FRAME_TOO_LARGE;
    }
    var frame := FillFrame(msgType, header.value, Contents(payload));
    ghost var unsigned := frame.View();
    SignFrame(frame, key, mallocOk);
    SignedIsSdkFrame(key, unsigned);
    status := SendFrame(sock, frame);
  }

  lemma SignedIsSdkFrame(key: seq<byte>, f: Frame)
    requires f.version == PROTOCOL_VERSION && f.flags == FLAG_HMAC
    ensures f.(mac := Hmac.Mac(key, Signable(f))) == SdkFrame(key, f.msgType, f.header, f.payload)
  {
    hide Hmac.Mac, Signable;
    SignableIgnoresMac(f, []);
  }

  /** A null payload is an empty one. */
  function Contents(payload: Option<seq<byte>>): seq<byte> { if payload.Some? then payload.value else [] }

  // ------------------------------------------------------------------ receiving

  /** eipc_transport_recv_frame, then the MAC check of eipc_client_receive: outcome and unread stream. */
  function SdkReceive(key: seq<byte>, s: seq<byte>, mallocOk: bool): (Result<Frame, Status>, seq<byte>) {
    match Take(s, 4)
    case (None, rest) => (Err(EIPC_ERR_IO), rest)
    case (Some(l), s1) =>
      if FromBE(l) > MAX_FRAME then (Err(EIPC_ERR_FRAME_TOO_LARGE), s1)
      else if !mallocOk then (Err(EIPC_ERR_NOMEM), s1)
      else
        match Take(s1, FromBE(l))
        case (None, rest) => (Err(EIPC_ERR_IO), rest)
        case (Some(buf), rest) =>
          match CParse(buf)
          case Err(e) => (Err(e), rest)
          case Ok(f) =>
            (if HasHmac(f.flags) && Hmac.Mac(key, Signable(f)) != f.mac then Err(EIPC_ERR_AUTH) else Ok(f), rest)
  }

  /** eipc_client_t, as far as receiving goes. */
  class Client {
    const sock: Source
    const key: seq<byte>
    var connected: bool

    constructor (sock: Source, key: seq<byte>)
      ensures this.sock == sock && this.key == key && connected
    {
      this.sock, this.key, connected := sock, key, true;
    }
  }

  /**
   The receiving half of eipc_client_receive, up to the header; `wanted` is
   whether the caller gave a message to fill.
   */
  method Receive(client: Client?, wanted: bool, frame: CFrame, mallocOk: bool, hmacMallocOk: bool)
    returns (status: Status)
    requires frame.Valid()
    modifies if client == null then {} else {client.sock}, frame, frame.header, frame.payload, frame.mac
    ensures status == EIPC_ERR_INVALID <==> client == null || !client.connected || !wanted
    ensures status == EIPC_ERR_INVALID && client != null ==> client.sock.pending == old(client.sock.pending)
    ensures status != EIPC_ERR_INVALID ==>
              var (r, rest) := SdkReceive(client.key, old(client.sock.pending), mallocOk);
              && client.sock.pending == rest
              && (if r.Ok? then status == EIPC_OK && frame.InBounds() && frame.View() == r.value else status == r.error)
  {
    if client == null || !client.connected || !wanted {
      return EIPC_ERR_INVALID;
    }
    status := ReceiveFrame(client.sock, client.key, frame, mallocOk, hmacMallocOk);
    ReceiveStatus(client.key, old(client.sock.pending), mallocOk);
  }

  lemma ReceiveStatus(key: seq<byte>, s: seq<byte>, mallocOk: bool)
    ensures var r := SdkReceive(key, s, mallocOk).0; r.Err? ==> r.error !in {EIPC_OK, EIPC_ERR_INVALID}
  {
    hide FromBE, CParse, Signable, Hmac.Mac;
  }

  /** eipc_transport_recv_frame and the MAC check. */
  method ReceiveFrame(sock: Source, key: seq<byte>, frame: CFrame, mallocOk: bool, hmacMallocOk: bool)
    returns (status: Status)
    requires frame.Valid()
    modifies sock, frame, frame.header, frame.payload, frame.mac
    ensures var (r, rest) := SdkReceive(key, old(sock.pending), mallocOk);
            && sock.pending == rest
            && (if r.Ok? then status == EIPC_OK && frame.InBounds() && frame.View() == r.value else status == r.error)
    ensures status in {EIPC_ERR_IO, EIPC_ERR_NOMEM} ==> frame.InBounds() && frame.View() == Frame(0, 0, 0, [], [], [])
  {
    hide FromBE, CParse, Signable, Hmac.Mac;
    frame.Zero();
    var prefix := sock.ReadFull(4);
    if prefix.None? {
      return EIPC_ERR_IO;
    }
    var n := FromBE(prefix.value);
    if n > MAX_FRAME {
      return EIPC_ERR_FRAME_TOO_LARGE;
    }
    if !mallocOk {
      return EIPC_ERR_NOMEM;
    }
    var buf := sock.ReadFull(n);
    if buf.None? {
      return EIPC_ERR_IO;
    }
    status := CFrames.Decode(Some(buf.value), frame);
    if status != EIPC_OK {
      return;
    }
    if HasHmac(frame.flags) {
      var signable := new byte[FRAME_BUF];
      ghost var f := frame.View();
      var len := CFrames.SignableBytes(frame, signable, FRAME_BUF);
      assert len > 0;
      SignableLength(f);
      var ok := Hmac.Verify(key, signable[..len], frame.mac[..], hmacMallocOk);
      if !ok {
        return EIPC_ERR_AUTH;
      }
    }
  }

  // ------------------------------------------------------------- the two together

  /** The Go side signs with the key the SDK was given. */
  ghost predicate SharesKey(env: Env, key: seq<byte>) { forall d :: env.sign(d) == Hmac.Mac(key, d) }

  /**
   What the SDK sends, the Go server takes: the frame decodes, its MAC is right
   and only the replay window decides, whatever follows in the stream.
   */
  lemma SdkReachesServer(env: Env, key: seq<byte>, t: Replay.Window, msgType: byte, header: seq<byte>,
                         payload: seq<byte>, h: Header, rest: seq<byte>)
    requires SharesKey(env, key) && |header| <= MAX_HEADER && |payload| <= MAX_PAYLOAD
    requires env.unmarshal(header) == Some(h)
    ensures var f := SdkFrame(key, msgType, header, payload);
            var (t', ok) := Replay.CheckStep(t, h.sequence);
            ServerReceive(env, t, Transport.Packet(f) + rest)
            == (if ok then Ok(MessageOf(env, f, h)) else Err(ErrReplay), t', rest)
  {
    hide Transport.Next, Transport.Packet, Signable, Hmac.Mac, Replay.CheckStep, MessageOf;
    var f := SdkFrame(key, msgType, header, payload);
    SignableIgnoresMac(Frame(PROTOCOL_VERSION, msgType, FLAG_HMAC, header, payload, []), f.mac);
    Transport.ReceivesPacket(f, rest);
  }

  /** On every stream the SDK takes exactly the frames the Go endpoint's checks take that its structure can hold. */
  lemma ReceiversAgree(env: Env, key: seq<byte>, s: seq<byte>)
    requires SharesKey(env, key)
    ensures var (sdk, rest), (go, rest') := SdkReceive(key, s, true), Transport.Next(s);
            && (sdk.Ok? <==> go.Ok? && Holds(go.value) && MacOk(env, go.value))
            && (sdk.Ok? ==> sdk.value == go.value && rest == rest')
            && (go.Ok? && Holds(go.value) && !MacOk(env, go.value) ==> sdk == Err(EIPC_ERR_AUTH))
  {
    hide FromBE, CParse, Parse, Signable, Hmac.Mac;
    if |s| >= 4 && FromBE(s[..4]) <= |s[4..]| {
      DecodersAgree(s[4..][..FromBE(s[..4])]);
    }
  }

  /** So the SDK takes every message a Go endpoint sends that fits its structure, and leaves what follows. */
  lemma EndpointReachesSdk(env: Env, key: seq<byte>, n: u64, msg: Message, rest: seq<byte>)
    requires SharesKey(env, key) && Lawful(env) && Sendable(env, n, msg) && Holds(FrameFor(env, n, msg))
    ensures SdkReceive(key, Transport.Packet(FrameFor(env, n, msg)) + rest, true) == (Ok(FrameFor(env, n, msg)), rest)
  {
    hide Transport.Next, Transport.Packet, FrameFor, SdkReceive, Holds, SharesKey;
    var f := FrameFor(env, n, msg);
    Transport.ReceivesPacket(f, rest);
    ReceiversAgree(env, key, Transport.Packet(f) + rest);
    SentOpens(env, n, msg);
  }
}
