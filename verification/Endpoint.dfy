/**
 Client and server endpoints (core/endpoint.go) over ConnWrapper: numbered,
 signed messages from one client to one server, with the replay tracker in between.
 */
module Endpoint {
  import opened Bytes
  import opened ByteStreams
  import opened Frames
  import opened MessageTypes
  import Transport
  import Replay

  type Time = int
  /** The zero time.Time. */
  const ZERO_TIME: Time := 0

  /** Frame.Flags of every frame an endpoint sends: FlagHMAC. */
  const FLAG_HMAC: byte := 1
  const PAYLOAD_JSON: byte := 0

  datatype Message = Message(version: u16, typ: MessageType, source: string, timestamp: Time, sessionId: string,
                             requestId: string, priority: byte, capability: string, payload: seq<byte>)

  datatype Header = Header(serviceId: string, sessionId: string, requestId: string, sequence: u64,
                           timestamp: string, priority: byte, capability: string, payloadFormat: byte)

  /**
   What the endpoints call out to: the header codec, which may refuse a header,
   time formatting, and HMAC-SHA256 under the shared key.
   */
  datatype Env = Env(canMarshal: Header -> bool, marshal: Header -> seq<byte>, unmarshal: seq<byte> -> Option<Header>,
                     formatTime: Time -> string, parseTime: string -> Option<Time>,
                     sign: seq<byte> -> seq<byte>)

  /** Decoding undoes encoding, and a MAC has the MAC's length. */
  ghost predicate Lawful(env: Env) {
    && (forall h :: env.canMarshal(h) ==> env.unmarshal(env.marshal(h)) == Some(h))
    && (forall t :: env.parseTime(env.formatTime(t)) == Some(t))
    && forall d :: |env.sign(d)| == MAC_SIZE
  }

  datatype EndpointError = ErrConn(e: Transport.RecvError) | ErrIntegrity | ErrHeader | ErrReplay

  datatype SendError = ErrMarshal | ErrSend(e: Transport.SendError)

  // -------------------------------------------------------------------- sending

  function HeaderFor(env: Env, n: u64, msg: Message): Header {
    Header(msg.source, msg.sessionId, msg.requestId, n, env.formatTime(msg.timestamp), msg.priority, msg.capability,
           PAYLOAD_JSON)
  }

  predicate Marshals(env: Env, n: u64, msg: Message) { env.canMarshal(HeaderFor(env, n, msg)) }

  function UnsignedFrame(env: Env, n: u64, msg: Message): Frame {
    Frame(PROTOCOL_VERSION, ToByte(msg.typ), FLAG_HMAC, env.marshal(HeaderFor(env, n, msg)), msg.payload, [])
  }

  /** The frame both endpoints' Send builds for sequence number `n`. */
  function FrameFor(env: Env, n: u64, msg: Message): Frame {
    var f := UnsignedFrame(env, n, msg);
    f.(mac := env.sign(Signable(f)))
  }

  // ------------------------------------------------------------------ receiving

  /** The MAC is checked only when the frame says it carries one. */
  predicate MacOk(env: Env, f: Frame) { HasHmac(f.flags) ==> env.sign(Signable(f)) == f.mac }

  function MessageOf(env: Env, f: Frame, h: Header): Message {
    var ts := match env.parseTime(h.timestamp) case Some(t) => t case None => ZERO_TIME;
    Message(f.version, FromByte(f.msgType), h.serviceId, ts, h.sessionId, h.requestId, h.priority, h.capability,
            f.payload)
  }

  /** The part of Receive both endpoints share: integrity, then the header. */
  function Open(env: Env, f: Frame): Result<(Header, Message), EndpointError> {
    if !MacOk(env, f) then Err(ErrIntegrity)
    else
      match env.unmarshal(f.header)
      case None => Err(ErrHeader)
      case Some(h) => Ok((h, MessageOf(env, f, h)))
  }

  /** ServerEndpoint.Receive: outcome, the tracker after it, and the unread stream. */
  function ServerReceive(env: Env, t: Replay.Window, s: seq<byte>)
    : (Result<Message, EndpointError>, Replay.Window, seq<byte>)
  {
    match Transport.Next(s)
    case (Err(e), rest) => (Err(ErrConn(e)), t, rest)
    case (Ok(f), rest) =>
      match Open(env, f)
      case Err(e) => (Err(e), t, rest)
      case Ok((h, msg)) =>
        var (t', ok) := Replay.CheckStep(t, h.sequence);
        (if ok then Ok(msg) else Err(ErrReplay), t', rest)
  }

  /** ClientEndpoint.Receive: no replay check on this side. */
  function ClientReceive(env: Env, s: seq<byte>): (Result<Message, EndpointError>, seq<byte>) {
    match Transport.Next(s)
    case (Err(e), rest) => (Err(ErrConn(e)), rest)
    case (Ok(f), rest) =>
      match Open(env, f)
      case Err(e) => (Err(e), rest)
      case Ok((_, msg)) => (Ok(msg), rest)
  }

  // -------------------------------------------------------------------- classes

  class ClientEndpoint {
    const conn: Outgoing
    const env: Env
    var sequence: u64

    constructor (conn: Outgoing, env: Env)
      ensures this.conn == conn && this.env == env && sequence == 0
    {
      this.conn, this.env, sequence := conn, env, 0;
    }

    /** Send: the number is consumed whatever happens after. */
    method Send(msg: Message) returns (r: Result<(), SendError>)
      modifies this, conn
      ensures sequence == (old(sequence) + 1) % TWO_64
      ensures r == Err(ErrMarshal) <==> !Marshals(env, sequence, msg)
      ensures r == Err(ErrMarshal) ==> conn.data == old(conn.data)
      ensures r == Err(ErrSend(Transport.ErrEncode(ErrFrameTooLarge)))
              <==> Marshals(env, sequence, msg) && !Fits(FrameFor(env, sequence, msg))
      ensures r.Ok? ==> Fits(FrameFor(env, sequence, msg))
                        && conn.data == old(conn.data) + Transport.Packet(FrameFor(env, sequence, msg))
      ensures old(conn.data) <= conn.data <= old(conn.data) + Transport.Packet(FrameFor(env, sequence, msg))
    {
      hide Signable, Transport.Packet;
      sequence := (sequence + 1) % TWO_64;
      if !env.canMarshal(HeaderFor(env, sequence, msg)) {
        return Err(ErrMarshal);
      }
      var frame := UnsignedFrame(env, sequence, msg);
      var signed := SignableBytes(frame);
      frame := frame.(mac := env.sign(signed));
      var sent := Transport.Send(conn, frame);
      if sent.Err? {
        return Err(ErrSend(sent.error));
      }
      return Ok(());
    }
  }

  class ServerEndpoint {
    const conn: Source
    const env: Env
    const replay: Replay.Tracker
    var peerCapabilities: seq<string>

    constructor (conn: Source, env: Env)
      ensures this.conn == conn && this.env == env && fresh(replay)
      ensures replay.Value() == Replay.Fresh(Replay.DEFAULT_WINDOW) && peerCapabilities == []
    {
      this.conn, this.env, peerCapabilities := conn, env, [];
      replay := new Replay.Tracker(0);
    }

    /** SetPeerCapabilities. */
    method SetPeerCapabilities(caps: seq<string>)
      modifies this
      ensures peerCapabilities == caps
    {
      peerCapabilities := caps;
    }

    /** ValidateCapability: the empty capability always passes, any other must have been granted. */
    method ValidateCapability(msgCap: string) returns (ok: bool)
      ensures ok <==> msgCap == "" || msgCap in peerCapabilities
    {
      if msgCap == "" {
        return true;
      }
      var i := 0;
      while i < |peerCapabilities|
        invariant 0 <= i <= |peerCapabilities|
        invariant msgCap !in peerCapabilities[..i]
      {
        if peerCapabilities[i] == msgCap {
          return true;
        }
        i := i + 1;
      }
      return false;
    }

    /** Receive. */
    method Receive() returns (r: Result<Message, EndpointError>)
      modifies conn, replay
      ensures (r, replay.Value(), conn.pending) == ServerReceive(env, old(replay.Value()), old(conn.pending))
    {
      hide Signable, Transport.Next, Replay.CheckStep, MessageOf;
      var frame := Transport.Receive(conn);
      if frame.Err? {
        return Err(ErrConn(frame.error));
      }
      var f := frame.value;
      if HasHmac(f.flags) {
        var signed := SignableBytes(f);
        if env.sign(signed) != f.mac {
          return Err(ErrIntegrity);
        }
      }
      var hdr := env.unmarshal(f.header);
      if hdr.None? {
        return Err(ErrHeader);
      }
      var ok := replay.Check(hdr.value.sequence);
      if !ok {
        return Err(ErrReplay);
      }
      return Ok(MessageOf(env, f, hdr.value));
    }
  }

  // --------------------------------------------------------------------- lemmas

  /** What arrives when `msg` is sent: the version is the frame's and the type went through its byte. */
  function Arrives(msg: Message): Message {
    msg.(version := PROTOCOL_VERSION, typ := FromByte(ToByte(msg.typ)))
  }

  /** A message arrives unchanged, up to the version, exactly when its type survives the wire. */
  lemma ArrivesUnchanged(msg: Message)
    ensures Arrives(msg) == msg.(version := PROTOCOL_VERSION) <==> Survives(msg.typ)
  {
    hide ToByte, FromByte, Survives;
    TypeRoundTrip(msg.typ);
  }

  /** A sent frame opens to its own number and message. */
  lemma SentOpens(env: Env, n: u64, msg: Message)
    requires Lawful(env) && Marshals(env, n, msg)
    ensures Open(env, FrameFor(env, n, msg)) == Ok((HeaderFor(env, n, msg), Arrives(msg)))
    ensures Fits(FrameFor(env, n, msg)) ==> Canonical(FrameFor(env, n, msg))
    ensures FrameFor(env, n, msg).version == 1 && FrameFor(env, n, msg).flags == 1
    ensures HeaderFor(env, n, msg).sequence == n && HeaderFor(env, n, msg).payloadFormat == 0
  {
    hide ToByte, FromByte, Signable;
    var f, u := FrameFor(env, n, msg), UnsignedFrame(env, n, msg);
    SignableIgnoresMac(u, f.mac);
    assert f.mac == env.sign(Signable(u));
  }

  lemma SignableIgnoresMac(f: Frame, mac: seq<byte>)
    ensures Signable(f.(mac := mac)) == Signable(f)
  {
  }

  /**
   Exactly what a server that has accepted the numbers `accepted` accepts from a
   stream: a frame that decodes, whose MAC is right if it carries one, with a
   readable header and a number acceptable against all of that history.  Only
   such a frame moves the replay window.
   */
  lemma ServerAcceptsIff(env: Env, t: Replay.Window, accepted: set<u64>, s: seq<byte>)
    requires Replay.Remembers(t, accepted)
    ensures var (r, t', rest) := ServerReceive(env, t, s);
            var frame := Transport.Next(s).0;
            && (r.Ok? <==>
                  && frame.Ok? && (HasHmac(frame.value.flags) ==> frame.value.mac == env.sign(Signable(frame.value)))
                  && env.unmarshal(frame.value.header).Some?
                  && Replay.Acceptable(accepted, t.size, env.unmarshal(frame.value.header).value.sequence))
            && (r.Ok? ==> Replay.Remembers(t', accepted + {env.unmarshal(frame.value.header).value.sequence}))
            && (r.Ok? ==> Stamped(env, env.unmarshal(frame.value.header).value, r.value))
            && (t' != t ==> r.Ok?)
            && (frame.Ok? && HasHmac(frame.value.flags) && frame.value.mac != env.sign(Signable(frame.value)) ==>
                  r == Err(ErrIntegrity))
            && rest == Transport.Next(s).1
  {
    hide Transport.Next, Signable, Replay.CheckStep, Replay.Remembers, Replay.Acceptable;
    var frame := Transport.Next(s).0;
    if frame.Ok? && env.unmarshal(frame.value.header).Some? {
      var n := env.unmarshal(frame.value.header).value.sequence;
      Replay.CheckAgrees(t, accepted, n);
      RefusedUnchanged(t, n);
    }
  }

  /** The time of the header, or the zero time when it cannot be read. */
  ghost predicate Stamped(env: Env, h: Header, msg: Message) {
    msg.timestamp == if env.parseTime(h.timestamp).Some? then env.parseTime(h.timestamp).value else 0
  }

  /** What a client accepts: the same, whatever the number. */
  lemma ClientAcceptsIff(env: Env, s: seq<byte>)
    ensures var (r, rest) := ClientReceive(env, s);
            var frame := Transport.Next(s).0;
            && (r.Ok? <==>
                  && frame.Ok? && (HasHmac(frame.value.flags) ==> frame.value.mac == env.sign(Signable(frame.value)))
                  && env.unmarshal(frame.value.header).Some?)
            && (r.Ok? ==> Stamped(env, env.unmarshal(frame.value.header).value, r.value))
            && (frame.Ok? && HasHmac(frame.value.flags) && frame.value.mac != env.sign(Signable(frame.value)) ==>
                  r == Err(ErrIntegrity))
            && rest == Transport.Next(s).1
  {
    hide Transport.Next, Signable;
  }

  lemma RefusedUnchanged(t: Replay.Window, n: u64)
    ensures !Replay.CheckStep(t, n).1 ==> Replay.CheckStep(t, n).0 == t
  {
  }

  /** A message that marshals, in a frame that fits through the connection. */
  predicate Sendable(env: Env, n: u64, msg: Message) {
    Marshals(env, n, msg) && Transport.Deliverable(FrameFor(env, n, msg))
  }

  /** One delivered frame: the server's outcome depends only on its sequence number. */
  lemma ServerGets(env: Env, t: Replay.Window, n: u64, msg: Message, rest: seq<byte>)
    requires Lawful(env) && Sendable(env, n, msg)
    ensures var (t', ok) := Replay.CheckStep(t, n);
            ServerReceive(env, t, Transport.Packet(FrameFor(env, n, msg)) + rest)
            == (if ok then Ok(Arrives(msg)) else Err(ErrReplay), t', rest)
  {
    hide Transport.Next, Transport.Packet, Open, FrameFor, Replay.CheckStep;
    Transport.ReceivesPacket(FrameFor(env, n, msg), rest);
    SentOpens(env, n, msg);
  }

  /** The other direction: the client gets every message the server sends. */
  lemma ClientGets(env: Env, n: u64, msg: Message, rest: seq<byte>)
    requires Lawful(env) && Sendable(env, n, msg)
    ensures ClientReceive(env, Transport.Packet(FrameFor(env, n, msg)) + rest) == (Ok(Arrives(msg)), rest)
  {
    hide Transport.Next, Transport.Packet, Open, FrameFor;
    Transport.ReceivesPacket(FrameFor(env, n, msg), rest);
    SentOpens(env, n, msg);
  }

  /** `msgs[k-1]` is the message sent with number `k`; a delivery names one by its number. */
  ghost predicate Deliveries(env: Env, msgs: seq<Message>, ds: seq<u64>) {
    && |msgs| < TWO_64
    && forall i :: 0 <= i < |ds| ==> 1 <= ds[i] <= |msgs| && Sendable(env, ds[i], msgs[ds[i] - 1])
  }

  /** The bytes on the server's side when the channel delivers `ds`, with drops, copies and reordering. */
  function ChannelBytes(env: Env, msgs: seq<Message>, ds: seq<u64>): seq<byte>
    requires |msgs| < TWO_64 && forall i :: 0 <= i < |ds| ==> 1 <= ds[i] <= |msgs|
  {
    if |ds| == 0 then []
    else Transport.Packet(FrameFor(env, ds[0], msgs[ds[0] - 1])) + ChannelBytes(env, msgs, ds[1..])
  }

  /** The numbers of `n` messages, in the order they are sent. */
  function Numbers(n: nat): (ds: seq<u64>)
    requires n < TWO_64
    ensures |ds| == n && forall i :: 0 <= i < n ==> ds[i] == i + 1
  {
    if n == 0 then [] else Numbers(n - 1) + [n]
  }

  lemma {:induction false} ChannelConcat(env: Env, msgs: seq<Message>, a: seq<u64>, b: seq<u64>)
    requires |msgs| < TWO_64 && forall i :: 0 <= i < |a| ==> 1 <= a[i] <= |msgs|
    requires forall i :: 0 <= i < |b| ==> 1 <= b[i] <= |msgs|
    ensures ChannelBytes(env, msgs, a + b) == ChannelBytes(env, msgs, a) + ChannelBytes(env, msgs, b)
    decreases |a|
  {
    hide Transport.Packet, FrameFor;
    if |a| == 0 {
      assert a + b == b;
    } else {
      ChannelConcat(env, msgs, a[1..], b);
      assert (a + b)[1..] == a[1..] + b && (a + b)[0] == a[0];
      var p := Transport.Packet(FrameFor(env, a[0], msgs[a[0] - 1]));
      Assoc(p, ChannelBytes(env, msgs, a[1..]), ChannelBytes(env, msgs, b));
    }
  }

  lemma SentNext(env: Env, msgs: seq<Message>, k: nat)
    requires k < |msgs| < TWO_64
    ensures ChannelBytes(env, msgs, Numbers(k + 1))
         == ChannelBytes(env, msgs, Numbers(k)) + Transport.Packet(FrameFor(env, k + 1, msgs[k]))
  {
    hide Transport.Packet, FrameFor;
    ChannelConcat(env, msgs, Numbers(k), [k + 1]);
    assert [k + 1][1..] == [];
  }

  /**
   A new client sending `msgs` one after the other: message `k` goes out under
   number `k + 1`.  As long as every Send succeeds, the connection carries
   exactly the numbered frames, in order.
   */
  method SendMessages(client: ClientEndpoint, msgs: seq<Message>) returns (results: seq<Result<(), SendError>>)
    requires client.sequence == 0 && |msgs| < TWO_64
    modifies client, client.conn
    ensures |results| == |msgs| && client.sequence == |msgs|
    ensures forall k :: 0 <= k < |msgs| && results[k].Ok? ==>
              Marshals(client.env, k + 1, msgs[k]) && Fits(FrameFor(client.env, k + 1, msgs[k]))
    ensures (forall k :: 0 <= k < |msgs| ==> results[k].Ok?) ==>
              client.conn.data == old(client.conn.data) + ChannelBytes(client.env, msgs, Numbers(|msgs|))
  {
    hide Transport.Packet, FrameFor, ChannelBytes, Fits, Marshals, Numbers;
    results := [];
    NothingSent(client.env, msgs);
    var i := 0;
    while i < |msgs|
      invariant 0 <= i <= |msgs| && |results| == i && client.sequence == i
      invariant forall k :: 0 <= k < i && results[k].Ok? ==>
                  Marshals(client.env, k + 1, msgs[k]) && Fits(FrameFor(client.env, k + 1, msgs[k]))
      invariant (forall k :: 0 <= k < i ==> results[k].Ok?) ==>
                  client.conn.data == old(client.conn.data) + ChannelBytes(client.env, msgs, Numbers(i))
    {
      SentNext(client.env, msgs, i);
      ghost var sofar := ChannelBytes(client.env, msgs, Numbers(i));
      ghost var next := Transport.Packet(FrameFor(client.env, i + 1, msgs[i]));
      Assoc(old(client.conn.data), sofar, next);
      ghost var before := results;
      var r := client.Send(msgs[i]);
      assert client.sequence == i + 1;
      results := results + [r];
      assert forall k :: 0 <= k < i ==> results[k] == before[k];
      if forall k :: 0 <= k < i + 1 ==> results[k].Ok? {
        assert forall k :: 0 <= k < i ==> before[k].Ok?;
        assert results[i].Ok?;
        assert client.conn.data == old(client.conn.data) + sofar + next;
      }
      i := i + 1;
    }
  }

  lemma NothingSent(env: Env, msgs: seq<Message>)
    requires |msgs| < TWO_64
    ensures ChannelBytes(env, msgs, Numbers(0)) == []
  {
  }

  /** The outcomes of `n` calls of the server's Receive. */
  function ServeAll(env: Env, t: Replay.Window, s: seq<byte>, n: nat): (r: seq<Result<Message, EndpointError>>)
    ensures |r| == n
    decreases n
  {
    if n == 0 then []
    else
      var (r, t', rest) := ServerReceive(env, t, s);
      [r] + ServeAll(env, t', rest, n - 1)
  }

  /** Whatever is delivered, the outcomes are the replay verdicts on the delivered numbers. */
  lemma {:induction false} OutcomesAreVerdicts(env: Env, t: Replay.Window, msgs: seq<Message>, ds: seq<u64>, i: nat)
    requires Lawful(env) && Deliveries(env, msgs, ds) && i < |ds|
    ensures ServeAll(env, t, ChannelBytes(env, msgs, ds), |ds|)[i]
         == if Replay.Run(t, ds).1[i] then Ok(Arrives(msgs[ds[i] - 1])) else Err(ErrReplay)
    decreases |ds|
  {
    hide ServerReceive, Transport.Packet, FrameFor, Replay.CheckStep, Sendable;
    var msg, rest := msgs[ds[0] - 1], ChannelBytes(env, msgs, ds[1..]);
    ServerGets(env, t, ds[0], msg, rest);
    if i > 0 {
      OutcomesAreVerdicts(env, Replay.CheckStep(t, ds[0]).0, msgs, ds[1..], i - 1);
    }
  }

  /** The outcomes at a new server endpoint. */
  function Outcomes(env: Env, msgs: seq<Message>, ds: seq<u64>): (r: seq<Result<Message, EndpointError>>)
    requires |msgs| < TWO_64 && forall i :: 0 <= i < |ds| ==> 1 <= ds[i] <= |msgs|
    ensures |r| == |ds|
  {
    ServeAll(env, Replay.Fresh(Replay.DEFAULT_WINDOW), ChannelBytes(env, msgs, ds), |ds|)
  }

  /** Over any channel the server accepts each sent message at most once. */
  lemma AtMostOnce(env: Env, msgs: seq<Message>, ds: seq<u64>, i: nat, j: nat)
    requires Lawful(env) && Deliveries(env, msgs, ds) && i < j < |ds|
    requires Outcomes(env, msgs, ds)[i].Ok? && Outcomes(env, msgs, ds)[j].Ok?
    ensures ds[i] != ds[j]
  {
    hide ServeAll, ChannelBytes, Replay.Run;
    OutcomesAreVerdicts(env, Replay.Fresh(Replay.DEFAULT_WINDOW), msgs, ds, i);
    OutcomesAreVerdicts(env, Replay.Fresh(Replay.DEFAULT_WINDOW), msgs, ds, j);
    Replay.AcceptedOnce(Replay.DEFAULT_WINDOW, ds, i, j);
  }

  /**
   Exactly which deliveries are accepted: those of a message not accepted
   before, when nothing more than 128 numbers ahead was accepted before.  An
   accepted delivery is the message that was sent.
   */
  lemma DeliveredIff(env: Env, msgs: seq<Message>, ds: seq<u64>, i: nat)
    requires Lawful(env) && Deliveries(env, msgs, ds) && i < |ds|
    ensures var rs := Outcomes(env, msgs, ds);
            && (rs[i].Ok? <==> forall j :: 0 <= j < i && rs[j].Ok? ==>
                ds[j] != ds[i] && ds[j] as int <= ds[i] as int + 128)
            && (rs[i].Ok? ==> rs[i] == Ok(Arrives(msgs[ds[i] - 1])))
            && (rs[i].Err? ==> rs[i] == Err(ErrReplay))
  {
    hide ServeAll, ChannelBytes, Replay.Run, Sendable;
    var w := Replay.Fresh(Replay.DEFAULT_WINDOW);
    var rs, oks := Outcomes(env, msgs, ds), Replay.Run(w, ds).1;
    forall j | 0 <= j < |ds| ensures rs[j].Ok? <==> oks[j] {
      OutcomesAreVerdicts(env, w, msgs, ds, j);
    }
    OutcomesAreVerdicts(env, w, msgs, ds, i);
    Replay.PrunedWindowIsFullHistory(Replay.DEFAULT_WINDOW, ds, i);
    EarlierAccepted(ds, oks, i);
  }

  lemma EarlierAccepted(ds: seq<u64>, oks: seq<bool>, i: nat)
    requires |ds| == |oks| && i < |ds| && ds[i] != 0
    ensures Replay.Acceptable(Replay.AcceptedIn(ds[..i], oks[..i]), 128, ds[i])
            <==> forall j :: 0 <= j < i && oks[j] ==> ds[j] != ds[i] && ds[j] as int <= ds[i] as int + 128
  {
    var acc := Replay.AcceptedIn(ds[..i], oks[..i]);
    forall j | 0 <= j < i && oks[j] ensures ds[j] in acc {
      assert ds[..i][j] == ds[j] && oks[..i][j];
    }
    forall a | a in acc ensures exists j :: 0 <= j < i && oks[j] && ds[j] == a {
      var j :| 0 <= j < i && oks[..i][j] && ds[..i][j] == a;
    }
  }

  /** In-order delivery, with or without drops, accepts everything that is delivered. */
  lemma InOrderAcceptsAll(env: Env, msgs: seq<Message>, ds: seq<u64>, i: nat)
    requires Lawful(env) && Deliveries(env, msgs, ds) && i < |ds|
    requires forall j, k :: 0 <= j < k < |ds| ==> ds[j] < ds[k]
    ensures Outcomes(env, msgs, ds)[i] == Ok(Arrives(msgs[ds[i] - 1]))
  {
    DeliveredIff(env, msgs, ds, i);
  }

  /** Undisturbed, the server receives exactly what such a client sent, every message once and in order. */
  lemma SequenceArrives(env: Env, msgs: seq<Message>, i: nat)
    requires Lawful(env) && |msgs| < TWO_64 && i < |msgs|
    requires forall k :: 0 <= k < |msgs| ==> Sendable(env, k + 1, msgs[k])
    ensures Outcomes(env, msgs, Numbers(|msgs|))[i] == Ok(Arrives(msgs[i]))
  {
    hide Sendable, Outcomes, Arrives, Numbers;
    InOrderAcceptsAll(env, msgs, Numbers(|msgs|), i);
  }
}
