/**
 ConnWrapper (transport/transport.go): frames on a byte stream, each behind a
 four-byte length.
 */
module Transport {
  import opened Bytes
  import opened ByteStreams
  import opened Frames

  datatype RecvError = ErrReadLength | ErrTooLarge(len: nat) | ErrReadFrame | ErrDecode(err: Error)

  datatype SendError = ErrEncode(err: Error) | ErrWriteLength | ErrWriteFrame

  type Received = Result<Frame, RecvError>

  /** What Send puts on the stream: nothing for a frame Encode refuses. */
  function Packet(f: Frame): seq<byte> {
    if Fits(f) then ToBE(|Wire(f)|, 4) + Wire(f) else []
  }

  /** The result of Receive on a stream holding `s`, and what it leaves unread. */
  function Next(s: seq<byte>): (Received, seq<byte>) {
    match Take(s, 4)
    case (None, rest) => (Err(ErrReadLength), rest)
    case (Some(l), s1) =>
      var n := FromBE(l);
      if n > MAX_FRAME_SIZE then (Err(ErrTooLarge(n)), s1)
      else
        match Take(s1, n)
        case (None, rest) => (Err(ErrReadFrame), rest)
        case (Some(buf), rest) =>
          match Parse(buf).0
          case Ok(f) => (Ok(f), rest)
          case Err(e) => (Err(ErrDecode(e)), rest)
  }

  /** ConnWrapper.Send. */
  method Send(conn: Outgoing, f: Frame) returns (r: Result<(), SendError>)
    modifies conn
    ensures r.Ok? ==> Fits(f) && conn.data == old(conn.data) + Packet(f)
    ensures !Fits(f) <==> r == Err(ErrEncode(ErrFrameTooLarge))
    ensures r.Err? && r.error.ErrEncode? ==> !Fits(f) && conn.data == old(conn.data)
    ensures old(conn.data) <= conn.data <= old(conn.data) + Packet(f)
    ensures r == Err(ErrWriteLength) ==> |conn.data| <= |old(conn.data)| + 4
    ensures r == Err(ErrWriteFrame) ==> |conn.data| >= |old(conn.data)| + 4
  {
    hide ToBE, Wire;
    var buf := new Sink();
    var encoded := Encode(f, buf);
    if encoded.Err? {
      return Err(ErrEncode(encoded.error));
    }
    assert buf.data == Wire(f);
    var ok := conn.Write(ToBE(|buf.data|, 4));
    assert conn.data <= old(conn.data) + ToBE(|buf.data|, 4) <= old(conn.data) + Packet(f);
    if !ok {
      return Err(ErrWriteLength);
    }
    assert old(conn.data) + ToBE(|buf.data|, 4) + buf.data == old(conn.data) + Packet(f);
    ok := conn.Write(buf.data);
    if !ok {
      return Err(ErrWriteFrame);
    }
    return Ok(());
  }

  /** ConnWrapper.Receive. */
  method Receive(conn: Source) returns (r: Received)
    modifies conn
    ensures (r, conn.pending) == Next(old(conn.pending))
  {
    hide FromBE, Parse;
    var lenBuf := conn.ReadFull(4);
    if lenBuf.None? {
      return Err(ErrReadLength);
    }
    var frameLen := FromBE(lenBuf.value);
    if frameLen > MAX_FRAME_SIZE {
      return Err(ErrTooLarge(frameLen));
    }
    var frameBuf := conn.ReadFull(frameLen);
    if frameBuf.None? {
      return Err(ErrReadFrame);
    }
    var reader := new Source(frameBuf.value);
    var res := Decode(reader);
    match res
    case Ok(f) => return Ok(f);
    case Err(e) => return Err(ErrDecode(e));
  }

  // ------------------------------------------------------------------- lemmas

  /** The frames that survive the stream: canonical, and short enough with everything included. */
  predicate Deliverable(f: Frame) {
    && Canonical(f)
    && FIXED_SIZE + |f.header| + |f.payload| + (if HasHmac(f.flags) then MAC_SIZE else 0) <= MAX_FRAME_SIZE
  }

  lemma DeliverableIsWireBound(f: Frame)
    requires Canonical(f)
    ensures Deliverable(f) <==> |Wire(f)| <= MAX_FRAME_SIZE
  {
  }

  /** One frame, in front of anything. */
  lemma ReceivesPacket(f: Frame, rest: seq<byte>)
    requires Deliverable(f)
    ensures Next(Packet(f) + rest) == (Ok(f), rest)
  {
    hide FromBE, ToBE, Pow256, Parse, Wire, Canonical;
    DeliverableIsWireBound(f);
    WireLength(f);
    var s, w := Packet(f) + rest, Wire(f);
    PowersOf256();
    BEDecodesEncoding(|w|, 4);
    assert s[..4] == ToBE(|w|, 4) && s[4..] == w + rest;
    assert (w + rest)[..|w|] == w && (w + rest)[|w|..] == rest;
    ParsesWire(f, []);
    assert w + [] == w;
  }

  /** Only deliverable frames ever come out of Receive, whatever the stream holds. */
  lemma OnlyDeliverable(s: seq<byte>)
    requires Next(s).0.Ok?
    ensures Deliverable(Next(s).0.value)
  {
    hide FromBE, Parse, Wire;
    var l, s1 := s[..4], s[4..];
    var buf := s1[..FromBE(l)];
    ParseConsumesWire(buf);
    DeliverableIsWireBound(Next(s).0.value);
  }

  /** The stream after sending `fs` in order. */
  function SendAll(fs: seq<Frame>): seq<byte> {
    if |fs| == 0 then [] else Packet(fs[0]) + SendAll(fs[1..])
  }

  /** The outcomes of `n` calls of Receive, and what is left. */
  function ReceiveAll(s: seq<byte>, n: nat): (r: (seq<Received>, seq<byte>))
    ensures |r.0| == n
    decreases n
  {
    if n == 0 then ([], s)
    else
      var (r, rest) := Next(s);
      var (rs, rest') := ReceiveAll(rest, n - 1);
      ([r] + rs, rest')
  }

  function AllOk(fs: seq<Frame>): seq<Received> { seq(|fs|, i requires 0 <= i < |fs| => Ok(fs[i])) }

  lemma {:induction false} DeliversAll(fs: seq<Frame>)
    requires forall f :: f in fs ==> Deliverable(f)
    ensures ReceiveAll(SendAll(fs), |fs|) == (AllOk(fs), [])
  {
    hide Next, Packet;
    if |fs| > 0 {
      ReceivesPacket(fs[0], SendAll(fs[1..]));
      DeliversAll(fs[1..]);
      assert [Ok(fs[0])] + AllOk(fs[1..]) == AllOk(fs);
    }
  }

  lemma {:induction false} ReceivedAreDeliverable(s: seq<byte>, n: nat, i: nat)
    requires i < n && ReceiveAll(s, n).0[i].Ok?
    ensures Deliverable(ReceiveAll(s, n).0[i].value)
    decreases n
  {
    hide Next;
    if i == 0 {
      OnlyDeliverable(s);
    } else {
      ReceivedAreDeliverable(Next(s).1, n - 1, i - 1);
    }
  }

  /**
   Sending a list and receiving as many frames gives the same list back and an
   empty stream exactly when every frame of the list is deliverable.
   */
  lemma StreamRoundTrip(fs: seq<Frame>)
    ensures ReceiveAll(SendAll(fs), |fs|) == (AllOk(fs), [])
            <==> forall f :: f in fs ==> Deliverable(f)
  {
    hide Deliverable;
    var rs := ReceiveAll(SendAll(fs), |fs|).0;
    if ReceiveAll(SendAll(fs), |fs|) == (AllOk(fs), []) {
      forall f | f in fs ensures Deliverable(f) {
        var i :| 0 <= i < |fs| && fs[i] == f;
        assert rs[i] == AllOk(fs)[i] == Ok(f);
        ReceivedAreDeliverable(SendAll(fs), |fs|, i);
      }
    }
    if forall f :: f in fs ==> Deliverable(f) {
      DeliversAll(fs);
    }
  }

  /**
   The bounds of Encode and Receive differ: every canonical frame Send accepts
   but that is not deliverable is refused by length, its body left unread.
   */
  lemma TopOfRangeRefused(f: Frame, rest: seq<byte>)
    requires Canonical(f) && !Deliverable(f)
    ensures Next(Packet(f) + rest) == (Err(ErrTooLarge(|Wire(f)|)), Wire(f) + rest)
  {
    hide FromBE, ToBE, Pow256, Parse, Wire, Canonical;
    DeliverableIsWireBound(f);
    var s, w := Packet(f) + rest, Wire(f);
    PowersOf256();
    WireLength(f);
    BEDecodesEncoding(|w|, 4);
    assert s[..4] == ToBE(|w|, 4) && s[4..] == w + rest;
  }

  /** There is such a frame: a payload of MaxFrameSize bytes and nothing else. */
  function TopFrame(): Frame { Frame(PROTOCOL_VERSION, 105, 0, [], seq(MAX_FRAME_SIZE, _ => 0), []) }

  /** Send accepts it and Receive refuses what Send wrote. */
  lemma TopFrameLost(rest: seq<byte>)
    ensures Fits(TopFrame()) && Canonical(TopFrame())
    ensures Next(Packet(TopFrame()) + rest) == (Err(ErrTooLarge(MAX_FRAME_SIZE + FIXED_SIZE)), Wire(TopFrame()) + rest)
  {
    hide Next, Packet;
    TopOfRangeRefused(TopFrame(), rest);
  }

  lemma WireLength(f: Frame)
    requires Canonical(f)
    ensures |Wire(f)| <= MAX_FRAME_SIZE + FIXED_SIZE + MAC_SIZE && Fits(f)
  {
  }
}
