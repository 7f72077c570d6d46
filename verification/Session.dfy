/**
 A whole session of an honest client, end to end: what it sends through
 ClientEndpoint, handleConnection takes off the stream, logs in and hands to the
 handlers, every message once and in order.
 */
module Session {
  import opened Bytes
  import opened ByteStreams
  import opened Frames
  import opened MessageTypes
  import opened Endpoint
  import opened Server
  import opened Connection
  import Transport
  import Replay
  import Auth

  // ------------------------------------------------------------------ the stream

  function FramesOf(env: Env, msgs: seq<Message>, ds: seq<u64>): (fs: seq<Option<Frame>>)
    requires |msgs| < TWO_64 && forall i :: 0 <= i < |ds| ==> 1 <= ds[i] <= |msgs|
    ensures |fs| == |ds|
  {
    seq(|ds|, i requires 0 <= i < |ds| => Some(FrameFor(env, ds[i], msgs[ds[i] - 1])))
  }

  /** The bytes of sent frames deliver those frames, and then the stream ends. */
  lemma {:induction false} DeliveredFrames(env: Env, msgs: seq<Message>, ds: seq<u64>)
    requires Deliveries(env, msgs, ds)
    ensures Delivered(ChannelBytes(env, msgs, ds)) == FramesOf(env, msgs, ds) + [None]
    decreases |ds|
  {
    hide FrameFor, Transport.Packet, Delivered, FramesOf, Transport.Deliverable;
    FramesFirst(env, msgs, ds);
    if |ds| == 0 {
      StreamEnds();
      assert FramesOf(env, msgs, ds) + [None] == [None];
    } else {
      var f, rest := FrameFor(env, ds[0], msgs[ds[0] - 1]), ChannelBytes(env, msgs, ds[1..]);
      DeliveredFrames(env, msgs, ds[1..]);
      DeliveredFirst(f, rest);
      assert [Some(f)] + (FramesOf(env, msgs, ds[1..]) + [None]) == [Some(f)] + FramesOf(env, msgs, ds[1..]) + [None];
    }
  }

  lemma FramesFirst(env: Env, msgs: seq<Message>, ds: seq<u64>)
    requires |msgs| < TWO_64 && forall i :: 0 <= i < |ds| ==> 1 <= ds[i] <= |msgs|
    ensures |ds| == 0 ==> FramesOf(env, msgs, ds) == []
    ensures |ds| > 0 ==>
              FramesOf(env, msgs, ds) == [Some(FrameFor(env, ds[0], msgs[ds[0] - 1]))] + FramesOf(env, msgs, ds[1..])
  {
    hide FrameFor;
  }

  /** Every message marshals and fits through the connection under its number. */
  ghost predicate AllSendable(env: Env, msgs: seq<Message>) {
    |msgs| < TWO_64 && forall k :: 0 <= k < |msgs| ==> Sendable(env, k + 1, msgs[k])
  }

  /** The frames of messages sent one after the other. */
  function SentFrames(env: Env, msgs: seq<Message>): (fs: seq<Option<Frame>>)
    requires |msgs| < TWO_64
    ensures |fs| == |msgs|
  {
    seq(|msgs|, k requires 0 <= k < |msgs| => Some(FrameFor(env, k + 1, msgs[k])))
  }

  /** The bytes a new client leaves on its connection when it has sent the messages. */
  function SentBytes(env: Env, msgs: seq<Message>): seq<byte>
    requires |msgs| < TWO_64
  {
    ChannelBytes(env, msgs, Numbers(|msgs|))
  }

  lemma SentDelivered(env: Env, msgs: seq<Message>)
    requires AllSendable(env, msgs)
    ensures Delivered(SentBytes(env, msgs)) == SentFrames(env, msgs) + [None]
  {
    hide Numbers, Sendable, FrameFor, Delivered, ChannelBytes;
    var ds := Numbers(|msgs|);
    assert Deliveries(env, msgs, ds);
    DeliveredFrames(env, msgs, ds);
    assert FramesOf(env, msgs, ds) == SentFrames(env, msgs);
  }

  lemma StreamEnds()
    ensures Delivered([]) == [None]
  {
  }

  lemma DeliveredFirst(f: Frame, rest: seq<byte>)
    requires Transport.Deliverable(f)
    ensures Delivered(Transport.Packet(f) + rest) == [Some(f)] + Delivered(rest)
  {
    hide Transport.Next, Transport.Packet;
    Transport.ReceivesPacket(f, rest);
  }

  // ------------------------------------------------------------------ the client

  /** A client that says hello as `service`, answers the challenge `nonce`, gets `token` and sends `msgs`. */
  datatype Client = Client(hello: Message, answer: Message, msgs: seq<Message>, service: string, nonce: seq<byte>,
                           token: string)

  /** Everything it sends, in order. */
  function Sent(h: Client): (all: seq<Message>)
    ensures |all| == 2 + |h.msgs| && all[0] == h.hello && all[1] == h.answer
    ensures forall k :: 0 <= k < |h.msgs| ==> all[2 + k] == h.msgs[k]
  {
    [h.hello, h.answer] + h.msgs
  }

  /** The identity it gets: its service's capabilities and the lifetime in force by then. */
  function PeerOf(x: Call, h: Client): Auth.Peer
    requires h.service in x.st.auth.known
  {
    var ops := x.inp.others(0) + Since(x, h.service);
    Auth.Peer(h.service, x.st.auth.known[h.service], h.token, x.inp.now(1),
              Auth.At(x.world.env.sign, x.st.auth, ops, |ops|).ttl)
  }

  /** The client knows the secret, and nobody else takes a challenge for its service while it answers its own. */
  ghost predicate LogsIn(x: Call, h: Client) {
    && x.c !in x.st.conns && h.service in x.st.auth.known
    && x.inp.nonce == Some(h.nonce) && x.inp.token == Some(h.token) && x.inp.sent(0) && x.inp.sent(1)
    && h.hello.typ == TypeAuth() && x.world.parseAuth(h.hello.payload) == Some(h.service)
    && h.answer.typ == TypeAuthResponse()
    && x.world.parseResponse(h.answer.payload) == Some(x.world.env.sign(h.nonce))
    && forall op :: op in x.inp.others(1) ==>
         !Auth.Issues(x.st.auth.known, op, h.service) && !Auth.Attempts(op, h.service)
  }

  /** Message `k` is within the session and the service's capabilities, and its reply, if any, can be sent. */
  ghost predicate WithinSession(x: Call, h: Client, k: nat)
    requires h.service in x.st.auth.known && k < |h.msgs|
  {
    && Auth.InTime(PeerOf(x, h), x.inp.now(2 + k))
    && (h.msgs[k].capability == "" || h.msgs[k].capability in x.st.auth.known[h.service])
    && (Replies(x.world, Arrives(h.msgs[k])) ==> x.inp.sent(2 + k))
  }

  /** Everything fits through the connection, and the call gets exactly that off the stream. */
  ghost predicate Gets(x: Call, h: Client) {
    Lawful(x.world.env) && AllSendable(x.world.env, Sent(h)) && x.ds == SentFrames(x.world.env, Sent(h)) + [None]
  }

  /** What the call gets at step `k`. */
  lemma GetsAt(x: Call, h: Client, k: nat)
    requires Gets(x, h) && k < |Sent(h)|
    ensures |x.ds| == 3 + |h.msgs| && 3 + |h.msgs| <= TWO_64 && x.ds[2 + |h.msgs|] == None
    ensures x.ds[k] == Some(FrameFor(x.world.env, k + 1, Sent(h)[k])) && Marshals(x.world.env, k + 1, Sent(h)[k])
  {
    hide FrameFor, Marshals, Sent, Transport.Deliverable;
    assert Sendable(x.world.env, k + 1, Sent(h)[k]);
  }

  ghost predicate Honest(x: Call, h: Client) {
    && Gets(x, h) && LogsIn(x, h)
    && forall k :: 0 <= k < |h.msgs| ==> WithinSession(x, h, k)
  }

  /** What is to happen up to message `n`. */
  function Expected(x: Call, h: Client, n: nat): (log: seq<Outcome>)
    requires h.service in x.st.auth.known && n <= |h.msgs| && 2 + |h.msgs| < TWO_64
    ensures |log| == 2 + n
  {
    if n == 0 then [Challenged(1, h.service), LoggedIn(2, PeerOf(x, h))]
    else
      var msg := Arrives(h.msgs[n - 1]);
      Expected(x, h, n - 1) + [Dispatched(2 + n, msg, Dispatch(x.world, msg))]
  }

  /** The messages as they arrive. */
  function Arrived(msgs: seq<Message>): seq<Message> { seq(|msgs|, i requires 0 <= i < |msgs| => Arrives(msgs[i])) }

  // ------------------------------------------------------------------- step by step

  lemma ChallengePhase(world: World, auth: Auth.State, w: Replay.Window, c: nat, h: Client, now: int)
    requires Lawful(world.env) && Marshals(world.env, 1, h.hello) && w.maxSeen == 0 && h.service in auth.known
    requires h.hello.typ == TypeAuth() && world.parseAuth(h.hello.payload) == Some(h.service)
    ensures var (auth', conn, out) :=
              AuthPhase(world, auth, w, OnAuth(c, Some(FrameFor(world.env, 1, h.hello)), Some(h.nonce), now, true));
            && auth' == Auth.Step(world.env.sign, auth, Auth.CreateChallenge(h.service, Some(h.nonce), now)).0
            && conn.AwaitResponse? && conn.service == h.service && conn.w.maxSeen == 1
            && out == Challenged(1, h.service)
  {
    hide Receive, FrameFor, TypeAuth;
    NamedRoundTrip(h.hello.typ);
    HonestReceive(world, w, 1, h.hello);
  }

  lemma AnswerPhase(world: World, auth: Auth.State, w: Replay.Window, c: nat, h: Client, now: int)
    requires Lawful(world.env) && Marshals(world.env, 2, h.answer) && w.maxSeen == 1 && h.service in auth.known
    requires h.answer.typ == TypeAuthResponse()
    requires world.parseResponse(h.answer.payload) == Some(world.env.sign(h.nonce))
    requires h.service in auth.pending && auth.pending[h.service].nonce == h.nonce
    ensures var peer := Auth.Peer(h.service, auth.known[h.service], h.token, now, auth.ttl);
            var (auth', conn, out) := ResponsePhase(world, auth, w, h.service,
              OnResponse(c, Some(FrameFor(world.env, 2, h.answer)), Some(h.token), now, true));
            && conn.Authenticated? && conn.peer == peer && conn.w.maxSeen == 2 && out == LoggedIn(2, peer)
  {
    hide Receive, FrameFor, TypeAuthResponse;
    NamedRoundTrip(h.answer.typ);
    HonestReceive(world, w, 2, h.answer);
  }

  lemma MessagePhase(world: World, w: Replay.Window, peer: Auth.Peer, c: nat, n: u64, msg: Message, now: int,
                     sent: bool)
    requires Lawful(world.env) && Marshals(world.env, n, msg) && n > w.maxSeen && Auth.InTime(peer, now)
    requires msg.capability == "" || msg.capability in peer.capabilities
    requires Replies(world, Arrives(msg)) ==> sent
    ensures var (conn, out) := LoopTurn(world, w, peer, OnMessage(c, Some(FrameFor(world.env, n, msg)), now, sent));
            && conn.Authenticated? && conn.peer == peer && conn.w.maxSeen == n
            && out == Dispatched(n, Arrives(msg), Dispatch(world, Arrives(msg)))
  {
    hide Receive, FrameFor, Dispatch, Replies, ToByte, FromByte;
    HonestReceive(world, w, n, msg);
  }

  lemma {:induction false} KnownStays(mac: Auth.Mac, st: Auth.State, ops: seq<Auth.Op>, i: nat)
    requires i <= |ops|
    ensures Auth.At(mac, st, ops, i).known == st.known
  {
    hide Auth.Step;
    if i > 0 {
      KnownStays(mac, st, ops, i - 1);
      KnownStep(mac, Auth.At(mac, st, ops, i - 1), ops[i - 1]);
    }
  }

  lemma KnownStep(mac: Auth.Mac, st: Auth.State, op: Auth.Op)
    ensures Auth.Step(mac, st, op).0.known == st.known
  {
  }

  /** Calls that neither issue nor answer a challenge for `s` leave the pending one. */
  lemma {:induction false} PendingStays(mac: Auth.Mac, st: Auth.State, ops: seq<Auth.Op>, s: string, i: nat)
    requires i <= |ops| && s in st.pending
    requires forall op :: op in ops ==> !Auth.Issues(st.known, op, s) && !Auth.Attempts(op, s)
    ensures s in Auth.At(mac, st, ops, i).pending && Auth.At(mac, st, ops, i).pending[s] == st.pending[s]
  {
    hide Auth.Step, Auth.Issues, Auth.Attempts;
    if i > 0 {
      PendingStays(mac, st, ops, s, i - 1);
      KnownStays(mac, st, ops, i - 1);
      assert ops[i - 1] in ops;
      Auth.PendingStep(mac, st.known, Auth.At(mac, st, ops, i - 1), ops[i - 1], s);
    }
  }

  /** The authenticator when the answer comes. */
  lemma MetAnswer(x: Call, h: Client)
    requires h.service in x.st.auth.known && x.inp.nonce == Some(h.nonce)
    requires forall op :: op in x.inp.others(1) ==>
               !Auth.Issues(x.st.auth.known, op, h.service) && !Auth.Attempts(op, h.service)
    ensures var mac, op := x.world.env.sign, Auth.CreateChallenge(h.service, x.inp.nonce, x.inp.now(0));
            var auth := Met(x, Auth.Step(mac, Met(x, x.st.auth, 0), op).0, 1);
            && auth.known == x.st.auth.known && auth.ttl == PeerOf(x, h).ttl
            && h.service in auth.pending && auth.pending[h.service].nonce == h.nonce
  {
    hide Auth.Issues, Auth.Attempts, Auth.Step, Auth.At;
    var mac, op := x.world.env.sign, Auth.CreateChallenge(h.service, x.inp.nonce, x.inp.now(0));
    var before, after := x.inp.others(0), x.inp.others(1);
    var auth0 := Met(x, x.st.auth, 0);
    var auth1 := Auth.Step(mac, auth0, op).0;
    KnownStays(mac, x.st.auth, before, |before|);
    ChallengeEffect(mac, auth0, h.service, h.nonce, x.inp.now(0));
    KnownStays(mac, auth1, after, |after|);
    PendingStays(mac, auth1, after, h.service, |after|);
    Auth.AtConcat(mac, x.st.auth, before, [op] + after);
    Auth.AtConcat(mac, auth0, [op], after);
    OneCall(mac, auth0, op);
  }

  lemma ChallengeEffect(mac: Auth.Mac, st: Auth.State, s: string, nonce: seq<byte>, now: int)
    requires s in st.known
    ensures var st' := Auth.Step(mac, st, Auth.CreateChallenge(s, Some(nonce), now)).0;
            st'.known == st.known && s in st'.pending && st'.pending[s].nonce == nonce
  {
  }

  lemma OneCall(mac: Auth.Mac, st: Auth.State, op: Auth.Op)
    ensures Auth.At(mac, st, [op], 1) == Auth.Step(mac, st, op).0
  {
    hide Auth.Step;
    assert Auth.At(mac, st, [op], 0) == st;
  }

  lemma LoginStands(x: Call, h: Client) returns (auth: Auth.State, w: Replay.Window)
    requires Gets(x, h) && LogsIn(x, h)
    ensures |h.msgs| + 2 < TWO_64
    ensures Stands(x, auth, Authenticated(w, PeerOf(x, h)), Expected(x, h, 0)) && w.maxSeen == 2
  {
    hide Step, Stands, AuthPhase, ResponsePhase, FrameFor, Auth.At, Auth.Step, TypeAuth, TypeAuthResponse, PeerOf,
      AllSendable, SentFrames, Sent, Marshals;
    GetsAt(x, h, 0);
    GetsAt(x, h, 1);
    var world, conns, c := x.world, x.st.conns, x.c;
    var w0 := Replay.Fresh(Replay.DEFAULT_WINDOW);
    Connected(x);
    var met := Met(x, x.st.auth, 0);
    KnownStays(world.env.sign, x.st.auth, x.inp.others(0), |x.inp.others(0)|);
    var a0 := TurnAction(c, 0, x.ds[0], x.inp);
    assert a0 == OnAuth(c, Some(FrameFor(world.env, 1, h.hello)), Some(h.nonce), x.inp.now(0), true);
    ChallengePhase(world, met, w0, c, h, x.inp.now(0));
    AuthAction(world, conns, c, met, w0, a0);
    var (auth1, conn1, out1) := AuthPhase(world, met, w0, a0);
    Advance(x, x.st.auth, AwaitAuth(w0), [], auth1, conn1, out1);

    MetAnswer(x, h);
    var met1 := Met(x, auth1, 1);
    var a1 := TurnAction(c, 1, x.ds[1], x.inp);
    assert a1 == OnResponse(c, Some(FrameFor(world.env, 2, h.answer)), Some(h.token), x.inp.now(1), true);
    AnswerPhase(world, met1, conn1.w, c, h, x.inp.now(1));
    ResponseAction(world, conns, c, met1, conn1.w, h.service, a1);
    var (auth2, conn2, out2) := ResponsePhase(world, met1, conn1.w, h.service, a1);
    Advance(x, auth1, conn1, [] + [out1], auth2, conn2, out2);
    PeerIs(x, h);
    assert [] + [out1] + [out2] == Expected(x, h, 0);
    auth, w := auth2, conn2.w;
  }

  lemma GetsLawful(x: Call, h: Client)
    requires Gets(x, h)
    ensures Lawful(x.world.env)
  {
  }

  lemma PeerIs(x: Call, h: Client)
    requires h.service in x.st.auth.known
    ensures PeerOf(x, h)
         == Auth.Peer(h.service, x.st.auth.known[h.service], h.token, x.inp.now(1), PeerOf(x, h).ttl)
  {
  }

  lemma {:induction false} MessagesStand(x: Call, h: Client, n: nat) returns (auth: Auth.State, w: Replay.Window)
    requires Honest(x, h) && n <= |h.msgs|
    ensures |h.msgs| + 2 < TWO_64
    ensures Stands(x, auth, Authenticated(w, PeerOf(x, h)), Expected(x, h, n)) && w.maxSeen == 2 + n
  {
    hide Step, Stands, LoopTurn, FrameFor, Auth.At, PeerOf, Replies, Arrives, AllSendable, SentFrames, Sent, Marshals,
      LogsIn, Gets;
    if n == 0 {
      auth, w := LoginStands(x, h);
    } else {
      auth, w := MessagesStand(x, h, n - 1);
      LogsInParts(x, h);
      GetsAt(x, h, 1 + n);
      var world, c, i, msg, peer := x.world, x.c, 1 + n, h.msgs[n - 1], PeerOf(x, h);
      var a, met := TurnAction(c, i, x.ds[i], x.inp), Met(x, auth, i);
      GetsLawful(x, h);
      assert WithinSession(x, h, n - 1) && Sent(h)[i] == h.msgs[n - 1];
      PeerIs(x, h);
      assert a == OnMessage(c, Some(FrameFor(world.env, 2 + n, msg)), x.inp.now(i), x.inp.sent(i));
      MessagePhase(world, w, peer, c, 2 + n, msg, x.inp.now(i), x.inp.sent(i));
      LoopAction(world, x.st.conns, c, met, w, peer, a);
      var (conn, out) := LoopTurn(world, w, peer, a);
      Advance(x, auth, Authenticated(w, peer), Expected(x, h, n - 1), met, conn, out);
      auth, w := met, conn.w;
    }
  }

  /** The whole call: login, every message dispatched in order, and the end of the stream. */
  lemma SessionCompletes(x: Call, h: Client) returns (auth: Auth.State)
    requires Honest(x, h)
    ensures |h.msgs| + 2 < TWO_64
    ensures Complete(x, auth, Expected(x, h, |h.msgs|) + [ReceiveFailed])
  {
    hide Step, Stands, FrameFor, Auth.At, PeerOf, Expected, AllSendable, SentFrames, Sent, LogsIn, Gets;
    GetsAt(x, h, 0);
    LogsInParts(x, h);
    var n := |h.msgs|;
    var auth0, w := MessagesStand(x, h, n);
    var peer, a := PeerOf(x, h), TurnAction(x.c, 2 + n, None, x.inp);
    auth := Met(x, auth0, 2 + n);
    LoopAction(x.world, x.st.conns, x.c, auth, w, peer, a);
    Advance(x, auth0, Authenticated(w, peer), Expected(x, h, n), auth, Closed, ReceiveFailed);
  }

  lemma {:induction false} HandedExpected(x: Call, h: Client, n: nat)
    requires h.service in x.st.auth.known && n <= |h.msgs| && 2 + |h.msgs| < TWO_64
    ensures Handed(Expected(x, h, n)) == Arrived(h.msgs[..n])
  {
    hide PeerOf, Dispatch, Handed, Arrives;
    if n == 0 {
      var c, l := Challenged(1, h.service), LoggedIn(2, PeerOf(x, h));
      HandedNothing(c);
      HandedNothing(l);
      HandedSnoc([c], l);
      assert Expected(x, h, 0) == [c] + [l];
    } else {
      var msg := Arrives(h.msgs[n - 1]);
      HandedExpected(x, h, n - 1);
      HandedOne(2 + n, msg, Dispatch(x.world, msg));
      HandedSnoc(Expected(x, h, n - 1), Dispatched(2 + n, msg, Dispatch(x.world, msg)));
      assert Arrived(h.msgs[..n]) == Arrived(h.msgs[..n - 1]) + [msg];
    }
  }

  lemma HandedOne(n: u64, msg: Message, allowed: Option<string>)
    ensures Handed([Dispatched(n, msg, allowed)]) == [msg]
  {
    var d := Dispatched(n, msg, allowed);
    assert [d][..0] == [];
  }

  /** What any complete log of such a call is. */
  lemma HonestLog(x: Call, h: Client, auth: Auth.State, log: seq<Outcome>)
    requires Honest(x, h) && Complete(x, auth, log)
    ensures |h.msgs| + 2 < TWO_64
    ensures log == Expected(x, h, |h.msgs|) + [ReceiveFailed] && Handed(log) == Arrived(h.msgs)
  {
    hide Complete, Expected, Handed, PeerOf, Honest;
    HonestParts(x, h);
    var auth' := SessionCompletes(x, h);
    CompleteUnique(x, auth, log, auth', Expected(x, h, |h.msgs|) + [ReceiveFailed]);
    HandedExpected(x, h, |h.msgs|);
    HandedSnoc(Expected(x, h, |h.msgs|), ReceiveFailed);
    HandedNothing(ReceiveFailed);
    assert h.msgs[..|h.msgs|] == h.msgs && Arrived(h.msgs) + [] == Arrived(h.msgs);
  }

  lemma HonestParts(x: Call, h: Client)
    requires Honest(x, h)
    ensures h.service in x.st.auth.known && 2 + |h.msgs| < TWO_64
  {
  }

  // ------------------------------------------------------------------- end to end

  /** The call that gets what the client sends, frame by frame. */
  function CallFor(world: World, st: State, c: nat, h: Client, inp: Inputs): Call
    requires |Sent(h)| < TWO_64
  {
    Call(world, st, c, SentFrames(world.env, Sent(h)) + [None], inp)
  }

  /**
   A new client sends its session through its endpoint and handleConnection
   serves it, with other goroutines at work in between.  If every Send succeeds,
   the call logs the challenge, the login and each message in order, and the
   handlers get exactly the messages the client sent.
   */
  method Converse(world: World, auth: Auth.Authenticator, handlers: Handlers, client: ClientEndpoint, h: Client,
                  inp: Inputs, ghost c: nat, ghost st: State)
    returns (sent: bool, ghost log: seq<Outcome>)
    requires client.sequence == 0 && client.conn.data == [] && client.env == world.env
    requires auth.mac == world.env.sign && handlers.Valid(world) && st.auth == auth.Value()
    requires Lawful(world.env) && AllSendable(world.env, Sent(h))
    requires var x := CallFor(world, st, c, h, inp);
             LogsIn(x, h) && forall k :: 0 <= k < |h.msgs| ==> WithinSession(x, h, k)
    modifies client, client.conn, auth, handlers
    ensures sent ==>
              && log == Expected(CallFor(world, st, c, h, inp), h, |h.msgs|) + [ReceiveFailed]
              && handlers.calls == old(handlers.calls) + Arrived(h.msgs)
    ensures !sent ==> handlers.calls == old(handlers.calls) && auth.Value() == old(auth.Value())
  {
    hide WithinSession, LogsIn, Expected, Complete, Handed, Delivered, ChannelBytes, Authorised, Arrived, Heartbeats,
      Fits, Marshals, At, FrameFor, Numbers, Sent, SentFrames, Sendable;
    ghost var x := CallFor(world, st, c, h, inp);
    SentDelivered(world.env, Sent(h));
    LogsInParts(x, h);
    var results := SendMessages(client, Sent(h));
    log := [];
    sent := AllSucceeded(results);
    if !sent {
      return;
    }
    assert [] + SentBytes(world.env, Sent(h)) == SentBytes(world.env, Sent(h));
    var conn := new Source(client.conn.data);
    log := HandleConnection(world, auth, conn, handlers, inp, c, st);
    HonestLog(x, h, auth.Value(), log);
  }

  method AllSucceeded(results: seq<Result<(), SendError>>) returns (ok: bool)
    ensures ok <==> forall k :: 0 <= k < |results| ==> results[k].Ok?
  {
    ok := true;
    var i := 0;
    while i < |results|
      invariant 0 <= i <= |results| && (ok <==> forall k :: 0 <= k < i ==> results[k].Ok?)
    {
      ok := ok && results[i].Ok?;
      i := i + 1;
    }
  }

  lemma LogsInParts(x: Call, h: Client)
    requires LogsIn(x, h)
    ensures x.c !in x.st.conns && h.service in x.st.auth.known
  {
  }
}
