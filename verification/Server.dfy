/**
 The server (cmd/eipc-server/main.go): any number of connections, each running
 handleConnection, over one shared authenticator.  Every step between two calls
 of Receive is one action; actions of different connections, and anything else
 done to the authenticator, interleave freely.
 */
module Server {
  import opened Bytes
  import opened Frames
  import opened MessageTypes
  import opened Endpoint
  import Replay
  import Auth
  import Capability

  /** The endpoint environment, the JSON (and hex) decoding of payloads, and whether a handler's reply marshals. */
  datatype World = World(env: Env, parseAuth: seq<byte> -> Option<string>,
                         parseResponse: seq<byte> -> Option<seq<byte>>,
                         decodes: (MessageType, seq<byte>) -> bool, replyMarshals: Message -> bool,
                         parseHeartbeat: seq<byte> -> Option<(string, string)>, allow: Capability.Allowlist)

  /** Where a connection's goroutine is: each phase ends in a Receive. */
  datatype Conn =
    | AwaitAuth(w: Replay.Window)
    | AwaitResponse(w: Replay.Window, service: string)
    | Authenticated(w: Replay.Window, peer: Auth.Peer)
    | Closed

  datatype State = State(auth: Auth.State, conns: map<nat, Conn>)

  /**
   `frame` is what the connection delivers, None when it fails or times out;
   `sent` whether a Send of the reply succeeds.
   */
  datatype Action =
    | Connect(c: nat)
    | OnAuth(c: nat, frame: Option<Frame>, nonce: Option<seq<byte>>, now: int, sent: bool)
    | OnResponse(c: nat, frame: Option<Frame>, token: Option<string>, now: int, sent: bool)
    | OnMessage(c: nat, frame: Option<Frame>, now: int, sent: bool)
    | Elsewhere(op: Auth.Op)

  datatype Outcome =
    | NoOp
    | ReceiveFailed
    | HandshakeRefused(n: u64)
    | Challenged(n: u64, service: string)
    | LoggedIn(n: u64, peer: Auth.Peer)
    | SessionExpired(n: u64)
    | CapabilityDenied(n: u64)
    | Dispatched(n: u64, msg: Message, allowed: Option<string>)

  /** ServerEndpoint.Receive on what was delivered: the sequence number and message it accepts. */
  function Receive(world: World, w: Replay.Window, frame: Option<Frame>): (Replay.Window, Option<(u64, Message)>) {
    if frame.None? then (w, None)
    else
      match Open(world.env, frame.value)
      case Err(_) => (w, None)
      case Ok((h, msg)) =>
        var (w', ok) := Replay.CheckStep(w, h.sequence);
        (w', if ok then Some((h.sequence, msg)) else None)
  }

  /** The action a handler checks before its allowed branch. */
  function GuardedAction(typ: MessageType): Option<string> {
    if typ == TypeIntent() then Some("ui.cursor.move")
    else if typ == TypeChat() then Some("ai.chat.send")
    else if typ == TypeComplete() then Some("ai.complete.send")
    else None
  }

  /** router.Dispatch: which guarded handler, if any, reaches its allowed branch. */
  function Dispatch(world: World, msg: Message): Option<string> {
    match GuardedAction(msg.typ)
    case None => None
    case Some(action) =>
      if world.decodes(msg.typ, msg.payload) && Capability.Permits(world.allow, [msg.capability], action)
      then Some(action) else None
  }

  /** The handler returns a reply to send; an error or nothing otherwise. */
  predicate Replies(world: World, msg: Message) { Dispatch(world, msg).Some? && world.replyMarshals(msg) }

  /** Steps 1 and 2 of handleConnection. */
  function AuthPhase(world: World, auth: Auth.State, w: Replay.Window, a: Action): (Auth.State, Conn, Outcome)
    requires a.OnAuth?
  {
    var (w', got) := Receive(world, w, a.frame);
    match got
    case None => (auth, Closed, ReceiveFailed)
    case Some((n, msg)) =>
      if msg.typ != TypeAuth() || world.parseAuth(msg.payload).None? then (auth, Closed, HandshakeRefused(n))
      else
        var s := world.parseAuth(msg.payload).value;
        var (auth', out) := Auth.Step(world.env.sign, auth, Auth.CreateChallenge(s, a.nonce, a.now));
        if !out.Challenged? || !a.sent then (auth', Closed, HandshakeRefused(n))
        else (auth', AwaitResponse(w', s), Challenged(n, s))
  }

  /** Steps 3 and 4. */
  function ResponsePhase(world: World, auth: Auth.State, w: Replay.Window, s: string, a: Action)
    : (Auth.State, Conn, Outcome)
    requires a.OnResponse?
  {
    var (w', got) := Receive(world, w, a.frame);
    match got
    case None => (auth, Closed, ReceiveFailed)
    case Some((n, msg)) =>
      if msg.typ != TypeAuthResponse() || world.parseResponse(msg.payload).None?
      then (auth, Closed, HandshakeRefused(n))
      else
        var response := world.parseResponse(msg.payload).value;
        var (auth', out) := Auth.Step(world.env.sign, auth, Auth.VerifyResponse(s, response, a.token, a.now));
        if !out.Verified? || !a.sent then (auth', Closed, HandshakeRefused(n))
        else (auth', Authenticated(w', out.peer), LoggedIn(n, out.peer))
  }

  /** One turn of the message loop: only a handler's reply that cannot be sent ends it after a dispatch. */
  function LoopTurn(world: World, w: Replay.Window, peer: Auth.Peer, a: Action): (Conn, Outcome)
    requires a.OnMessage?
  {
    var (w', got) := Receive(world, w, a.frame);
    match got
    case None => (Closed, ReceiveFailed)
    case Some((n, msg)) =>
      if Auth.IsExpired(peer, a.now) then (Closed, SessionExpired(n))
      else if !(msg.capability == "" || msg.capability in peer.capabilities)
      then (Authenticated(w', peer), CapabilityDenied(n))
      else
        (if Replies(world, msg) && !a.sent then Closed else Authenticated(w', peer),
         Dispatched(n, msg, Dispatch(world, msg)))
  }

  function Step(world: World, st: State, a: Action): (State, Outcome) {
    match a
    case Connect(c) =>
      if c in st.conns then (st, NoOp)
      else (st.(conns := st.conns[c := AwaitAuth(Replay.Fresh(Replay.DEFAULT_WINDOW))]), NoOp)
    case Elsewhere(op) => (st.(auth := Auth.Step(world.env.sign, st.auth, op).0), NoOp)
    case OnAuth(c, _, _, _, _) =>
      if !(c in st.conns && st.conns[c].AwaitAuth?) then (st, NoOp)
      else
        var (auth', conn, out) := AuthPhase(world, st.auth, st.conns[c].w, a);
        (State(auth', st.conns[c := conn]), out)
    case OnResponse(c, _, _, _, _) =>
      if !(c in st.conns && st.conns[c].AwaitResponse?) then (st, NoOp)
      else
        var (auth', conn, out) := ResponsePhase(world, st.auth, st.conns[c].w, st.conns[c].service, a);
        (State(auth', st.conns[c := conn]), out)
    case OnMessage(c, _, _, _) =>
      if !(c in st.conns && st.conns[c].Authenticated?) then (st, NoOp)
      else
        var (conn, out) := LoopTurn(world, st.conns[c].w, st.conns[c].peer, a);
        (st.(conns := st.conns[c := conn]), out)
  }

  // ----------------------------------------------------------------------- runs

  function Start(known: map<string, seq<string>>): State { State(Auth.Initial(known), map[]) }

  /** The state before action `i` of a run, and the outcome of action `i`. */
  function At(world: World, known: map<string, seq<string>>, run: seq<Action>, i: nat): State
    requires i <= |run|
  {
    if i == 0 then Start(known) else Step(world, At(world, known, run, i - 1), run[i - 1]).0
  }

  function OutcomeAt(world: World, known: map<string, seq<string>>, run: seq<Action>, i: nat): Outcome
    requires i < |run|
  {
    Step(world, At(world, known, run, i), run[i]).1
  }

  /** The connection an action belongs to. */
  predicate On(a: Action, c: nat) { !a.Elsewhere? && a.c == c }

  /** The sequence number a Receive accepted, if it accepted one. */
  function Accepts(out: Outcome): Option<u64> {
    if out.NoOp? || out.ReceiveFailed? then None else Some(out.n)
  }

  /** An action leaves every other connection as it was. */
  lemma OthersUntouched(world: World, st: State, a: Action, c: nat)
    requires !On(a, c)
    ensures (c in Step(world, st, a).0.conns <==> c in st.conns)
    ensures c in st.conns ==> Step(world, st, a).0.conns[c] == st.conns[c]
  {
    hide AuthPhase, ResponsePhase, LoopTurn;
  }

  lemma {:induction false} AuthInv(world: World, known: map<string, seq<string>>, run: seq<Action>, i: nat)
    requires i <= |run|
    ensures Auth.Inv(known, At(world, known, run, i).auth)
  {
    hide Step, Auth.Inv;
    if i == 0 {
      Auth.InitialInv(known);
    } else {
      AuthInv(world, known, run, i - 1);
      AuthStep(world, known, At(world, known, run, i - 1), run[i - 1]);
    }
  }

  lemma AuthStep(world: World, known: map<string, seq<string>>, st: State, a: Action)
    requires Auth.Inv(known, st.auth)
    ensures Auth.Inv(known, Step(world, st, a).0.auth)
  {
    hide Auth.Inv, Auth.Step, Receive, LoopTurn, TypeAuth, TypeAuthResponse;
    match a
    case Connect(_) =>
    case OnMessage(_, _, _, _) =>
    case Elsewhere(op) => Auth.StepKeeps(world.env.sign, known, st.auth, op);
    case OnAuth(c, _, nonce, now, _) =>
      if c in st.conns && st.conns[c].AwaitAuth? {
        var got := Receive(world, st.conns[c].w, a.frame).1;
        if got.Some? && world.parseAuth(got.value.1.payload).Some? {
          var s := world.parseAuth(got.value.1.payload).value;
          Auth.StepKeeps(world.env.sign, known, st.auth, Auth.CreateChallenge(s, nonce, now));
        }
      }
    case OnResponse(c, _, token, now, _) =>
      if c in st.conns && st.conns[c].AwaitResponse? {
        var got := Receive(world, st.conns[c].w, a.frame).1;
        if got.Some? && world.parseResponse(got.value.1.payload).Some? {
          var response := world.parseResponse(got.value.1.payload).value;
          var op := Auth.VerifyResponse(st.conns[c].service, response, token, now);
          Auth.StepKeeps(world.env.sign, known, st.auth, op);
        }
      }
  }

  // -------------------------------------------------- a connection and its history

  /** What was delivered passes the integrity check and is a message of this type. */
  predicate Carries(world: World, frame: Option<Frame>, typ: MessageType) {
    frame.Some? && Open(world.env, frame.value).Ok? && Open(world.env, frame.value).value.1.typ == typ
  }

  /** Action `i` answered a TypeAuth message on `c` with a challenge for service `s`. */
  predicate ChallengedAt(world: World, known: map<string, seq<string>>, run: seq<Action>, i: nat, c: nat, s: string) {
    i < |run| && run[i].OnAuth? && run[i].c == c && Carries(world, run[i].frame, TypeAuth())
    && OutcomeAt(world, known, run, i).Challenged? && OutcomeAt(world, known, run, i).service == s
  }

  /** Action `i` verified a TypeAuthResponse message on `c` and gave it identity `peer`. */
  predicate LoggedInAt(world: World, known: map<string, seq<string>>, run: seq<Action>, i: nat, c: nat,
                       peer: Auth.Peer)
  {
    i < |run| && run[i].OnResponse? && run[i].c == c && Carries(world, run[i].frame, TypeAuthResponse())
    && OutcomeAt(world, known, run, i).LoggedIn? && OutcomeAt(world, known, run, i).peer == peer
  }

  lemma ReceivedCarries(world: World, w: Replay.Window, frame: Option<Frame>)
    ensures var got := Receive(world, w, frame).1;
            got.Some? ==> Carries(world, frame, got.value.1.typ)
  {
    hide Open, Replay.CheckStep;
  }

  /** What one action does to its own connection. */
  lemma OwnStep(world: World, known: map<string, seq<string>>, st: State, a: Action, c: nat)
    requires On(a, c) && Auth.Inv(known, st.auth) && (c in st.conns || a.Connect?)
    ensures var (st', out) := Step(world, st, a);
            && c in st'.conns
            && (st'.conns[c].AwaitResponse? ==>
                  || (&& a.OnAuth? && Carries(world, a.frame, TypeAuth()) && out.Challenged?
                      && out.service == st'.conns[c].service)
                  || (c in st.conns && st.conns[c] == st'.conns[c]))
            && (st'.conns[c].Authenticated? ==>
                  || (&& a.OnResponse? && Carries(world, a.frame, TypeAuthResponse())
                      && out.LoggedIn? && out.peer == st'.conns[c].peer
                      && c in st.conns && st.conns[c].AwaitResponse? && st.conns[c].service == out.peer.serviceId
                      && out.peer.serviceId in known && out.peer.capabilities == known[out.peer.serviceId])
                  || (c in st.conns && st.conns[c].Authenticated? && st.conns[c].peer == st'.conns[c].peer))
  {
    hide Receive, TypeAuth, TypeAuthResponse, Carries;
    if !a.Connect? && !st.conns[c].Closed? {
      ReceivedCarries(world, WindowOf(st.conns[c]), a.frame);
    }
    if a.OnResponse? && st.conns[c].AwaitResponse? {
      var (auth', conn, out) := ResponsePhase(world, st.auth, st.conns[c].w, st.conns[c].service, a);
      assert out.LoggedIn? ==> out.peer.serviceId == st.conns[c].service;
    }
  }

  /** A connection awaiting a response was challenged before. */
  lemma {:induction false} WasChallenged(world: World, known: map<string, seq<string>>, run: seq<Action>, i: nat,
                                         c: nat)
    returns (a: nat)
    requires i <= |run|
    requires c in At(world, known, run, i).conns && At(world, known, run, i).conns[c].AwaitResponse?
    ensures a < i && ChallengedAt(world, known, run, a, c, At(world, known, run, i).conns[c].service)
  {
    hide Step, Carries, TypeAuth, TypeAuthResponse;
    var st := At(world, known, run, i - 1);
    if On(run[i - 1], c) {
      AuthInv(world, known, run, i - 1);
      ConnectedBefore(world, st, run[i - 1], c);
      OwnStep(world, known, st, run[i - 1], c);
      if run[i - 1].OnAuth? && Carries(world, run[i - 1].frame, TypeAuth())
         && OutcomeAt(world, known, run, i - 1).Challenged?
         && OutcomeAt(world, known, run, i - 1).service == At(world, known, run, i).conns[c].service {
        return i - 1;
      }
    } else {
      OthersUntouched(world, st, run[i - 1], c);
    }
    a := WasChallenged(world, known, run, i - 1, c);
  }

  /** Only Connect brings a connection into being. */
  lemma ConnectedBefore(world: World, st: State, a: Action, c: nat)
    requires On(a, c) && c in Step(world, st, a).0.conns
    ensures c in st.conns || a.Connect?
  {
    hide AuthPhase, ResponsePhase, LoopTurn;
  }

  /** An authenticated connection was challenged, then logged in, as the service of its identity. */
  lemma {:induction false} WasLoggedIn(world: World, known: map<string, seq<string>>, run: seq<Action>, i: nat, c: nat)
    returns (a: nat, b: nat)
    requires i <= |run|
    requires c in At(world, known, run, i).conns && At(world, known, run, i).conns[c].Authenticated?
    ensures var peer := At(world, known, run, i).conns[c].peer;
            && a < b < i && ChallengedAt(world, known, run, a, c, peer.serviceId)
            && LoggedInAt(world, known, run, b, c, peer)
            && peer.serviceId in known && peer.capabilities == known[peer.serviceId]
  {
    hide Step, Carries, TypeAuth, TypeAuthResponse;
    var st := At(world, known, run, i - 1);
    if On(run[i - 1], c) {
      AuthInv(world, known, run, i - 1);
      ConnectedBefore(world, st, run[i - 1], c);
      OwnStep(world, known, st, run[i - 1], c);
      if !(c in st.conns && st.conns[c].Authenticated? && st.conns[c].peer == At(world, known, run, i).conns[c].peer) {
        a := WasChallenged(world, known, run, i - 1, c);
        return a, i - 1;
      }
    } else {
      OthersUntouched(world, st, run[i - 1], c);
    }
    a, b := WasLoggedIn(world, known, run, i - 1, c);
  }

  lemma DispatchNeeds(world: World, st: State, act: Action)
    requires Step(world, st, act).1.Dispatched?
    ensures var out := Step(world, st, act).1;
            && act.OnMessage? && act.c in st.conns && st.conns[act.c].Authenticated?
            && var peer := st.conns[act.c].peer;
               && !Auth.IsExpired(peer, act.now)
               && (out.msg.capability == "" || out.msg.capability in peer.capabilities)
               && out.allowed == Dispatch(world, out.msg)
  {
    hide Receive, Dispatch, Auth.Step, TypeAuth, TypeAuthResponse;
  }

  lemma VerifiedService(mac: Auth.Mac, st: Auth.State, s: string, response: seq<byte>, token: Option<string>, now: int)
    ensures var out := Auth.Step(mac, st, Auth.VerifyResponse(s, response, token, now)).1;
            out.Verified? ==> out.peer.serviceId == s
  {
  }

  // --------------------------------------------- the authenticator's view of a run

  /** The authenticator call an action makes, if it makes one. */
  function AuthCall(world: World, st: State, a: Action): seq<Auth.Op> {
    match a
    case Elsewhere(op) => [op]
    case OnAuth(c, frame, nonce, now, _) =>
      if !(c in st.conns && st.conns[c].AwaitAuth?) then []
      else
        var got := Receive(world, st.conns[c].w, frame).1;
        if got.None? || got.value.1.typ != TypeAuth() || world.parseAuth(got.value.1.payload).None? then []
        else [Auth.CreateChallenge(world.parseAuth(got.value.1.payload).value, nonce, now)]
    case OnResponse(c, frame, token, now, _) =>
      if !(c in st.conns && st.conns[c].AwaitResponse?) then []
      else
        var got := Receive(world, st.conns[c].w, frame).1;
        if got.None? || got.value.1.typ != TypeAuthResponse() || world.parseResponse(got.value.1.payload).None? then []
        else [Auth.VerifyResponse(st.conns[c].service, world.parseResponse(got.value.1.payload).value, token, now)]
    case _ => []
  }

  /** All calls of all connections before action `i`, in the order they were made. */
  function AuthCalls(world: World, known: map<string, seq<string>>, run: seq<Action>, i: nat): seq<Auth.Op>
    requires i <= |run|
  {
    if i == 0 then []
    else AuthCalls(world, known, run, i - 1) + AuthCall(world, At(world, known, run, i - 1), run[i - 1])
  }

  lemma StepCalls(world: World, st: State, a: Action)
    ensures var calls := AuthCall(world, st, a);
            && |calls| <= 1 && (a.Elsewhere? || a.Connect? ==> Step(world, st, a).1 == NoOp)
            && Step(world, st, a).0.auth
               == if calls == [] then st.auth else Auth.Step(world.env.sign, st.auth, calls[0]).0
  {
    hide Receive, Auth.Step, Dispatch, TypeAuth, TypeAuthResponse;
  }

  /** The shared authenticator is in the state its own call history gives. */
  lemma {:induction false} AuthHistory(world: World, known: map<string, seq<string>>, run: seq<Action>, i: nat)
    requires i <= |run|
    ensures var ops := AuthCalls(world, known, run, i);
            At(world, known, run, i).auth == Auth.At(world.env.sign, Auth.Initial(known), ops, |ops|)
  {
    hide Step, Auth.Step, AuthCall;
    if i > 0 {
      var mac, st := world.env.sign, At(world, known, run, i - 1);
      var ops, calls := AuthCalls(world, known, run, i - 1), AuthCall(world, st, run[i - 1]);
      AuthHistory(world, known, run, i - 1);
      StepCalls(world, st, run[i - 1]);
      if calls == [] {
        assert ops + calls == ops;
      } else {
        Auth.AtPrefix(mac, Auth.Initial(known), ops, calls, |ops|);
        assert (ops + calls)[|ops|] == calls[0];
      }
    }
  }

  /**
   A login, on whatever connection, answers the latest challenge issued for its
   service on any connection, which nobody has tried to answer since.  It gives
   the service's capabilities, from now on and for the lifetime in force.
   */
  lemma LoginAnswersLatest(world: World, known: map<string, seq<string>>, run: seq<Action>, i: nat, c: nat,
                           peer: Auth.Peer)
    returns (k: nat, response: seq<byte>)
    requires LoggedInAt(world, known, run, i, c, peer)
    ensures var ops, s := AuthCalls(world, known, run, i), peer.serviceId;
            && k < |ops| && Auth.Issues(known, ops[k], s)
            && (forall m :: k < m < |ops| ==> !Auth.Issues(known, ops[m], s) && !Auth.Attempts(ops[m], s))
            && world.env.sign(ops[k].nonce.value) == response
            && s in known && run[i].token.Some?
            && peer == Auth.Peer(s, known[s], run[i].token.value, run[i].now, Auth.TtlAt(ops, |ops|))
            && AuthCall(world, At(world, known, run, i), run[i])
                == [Auth.VerifyResponse(s, response, run[i].token, run[i].now)]
  {
    hide Receive, Auth.Step, TypeAuth, TypeAuthResponse, At, Carries;
    var mac, st, ops := world.env.sign, At(world, known, run, i), AuthCalls(world, known, run, i);
    var s := st.conns[c].service;
    response := world.parseResponse(Receive(world, st.conns[c].w, run[i].frame).1.value.1.payload).value;
    var op := Auth.VerifyResponse(s, response, run[i].token, run[i].now);
    VerifiedService(mac, st.auth, s, response, run[i].token, run[i].now);
    AuthHistory(world, known, run, i);
    var all := ops + [op];
    Auth.AtPrefix(mac, Auth.Initial(known), ops, [op], |ops|);
    assert all[|ops|] == op;
    assert Auth.OutcomeAt(mac, Auth.Initial(known), all, |ops|) == Auth.Verified(peer);
    Auth.VerifiedIff(mac, known, all, |ops|);
    Auth.TtlPrefix(ops, [op], |ops|);
    k := Auth.Outstanding(known, all, |ops|, s).value;
    Auth.OutstandingIsLatest(known, all, |ops|, s);
    assert forall m :: 0 <= m < |ops| ==> all[m] == ops[m];
  }

  lemma {:induction false} CallsGrow(world: World, known: map<string, seq<string>>, run: seq<Action>, i: nat, j: nat)
    requires i <= j <= |run|
    ensures AuthCalls(world, known, run, i) <= AuthCalls(world, known, run, j)
    decreases j
  {
    hide AuthCall, At;
    if i < j {
      CallsGrow(world, known, run, i, j - 1);
    }
  }

  /** Between two logins of one service, on whatever connections, a new challenge for it was issued. */
  lemma LoginsNeedFreshChallenges(world: World, known: map<string, seq<string>>, run: seq<Action>,
                                  i: nat, j: nat, c: nat, d: nat, first: Auth.Peer, second: Auth.Peer) returns (k: nat)
    requires i < j && LoggedInAt(world, known, run, i, c, first) && LoggedInAt(world, known, run, j, d, second)
    requires first.serviceId == second.serviceId
    ensures var ops := AuthCalls(world, known, run, j);
            |AuthCalls(world, known, run, i)| < k < |ops| && Auth.Issues(known, ops[k], second.serviceId)
  {
    hide At, AuthCall, OutcomeAt;
    var k0, response := LoginAnswersLatest(world, known, run, i, c, first);
    var response';
    k, response' := LoginAnswersLatest(world, known, run, j, d, second);
    CallsGrow(world, known, run, i + 1, j);
    var ops := AuthCalls(world, known, run, j);
    assert Auth.Attempts(ops[|AuthCalls(world, known, run, i)|], second.serviceId);
  }

  /**
   Whatever the interleaving, a message is dispatched only on a connection that
   was challenged and then logged in, only until the lifetime in force at that
   login has passed, and only with no capability or one configured for the
   service it logged in as.
   */
  lemma DispatchOnlyAuthorised(world: World, known: map<string, seq<string>>, run: seq<Action>, i: nat)
    returns (a: nat, b: nat, peer: Auth.Peer)
    requires i < |run| && OutcomeAt(world, known, run, i).Dispatched?
    ensures run[i].OnMessage?
    ensures var msg := OutcomeAt(world, known, run, i).msg;
            && a < b < i && ChallengedAt(world, known, run, a, run[i].c, peer.serviceId)
            && LoggedInAt(world, known, run, b, run[i].c, peer)
            && peer.serviceId in known && peer.capabilities == known[peer.serviceId]
            && (msg.capability == "" || msg.capability in known[peer.serviceId])
    ensures var ops := AuthCalls(world, known, run, b);
            && peer.ttl == Auth.TtlAt(ops, |ops|)
            && (peer.ttl <= 0 || run[i].now <= run[b].now + peer.ttl)
  {
    hide Carries, TypeAuth, TypeAuthResponse, Step, AuthCall, Auth.Issues, Auth.Attempts, Auth.TtlAt;
    var st := At(world, known, run, i);
    DispatchNeeds(world, st, run[i]);
    peer := st.conns[run[i].c].peer;
    a, b := WasLoggedIn(world, known, run, i, run[i].c);
    var k, response := LoginAnswersLatest(world, known, run, b, run[i].c, peer);
  }

  // ------------------------------------------------------------- replay and closing

  /** The numbers accepted on `c` before action `i`. */
  ghost function AcceptedOn(world: World, known: map<string, seq<string>>, run: seq<Action>, i: nat, c: nat): set<u64>
    requires i <= |run|
  {
    if i == 0 then {}
    else
      AcceptedOn(world, known, run, i - 1, c) +
      (if On(run[i - 1], c) && Accepts(OutcomeAt(world, known, run, i - 1)).Some?
       then {Accepts(OutcomeAt(world, known, run, i - 1)).value} else {})
  }

  lemma ReceiveAgrees(world: World, w: Replay.Window, accepted: set<u64>, frame: Option<Frame>)
    requires Replay.Remembers(w, accepted)
    ensures var (w', got) := Receive(world, w, frame);
            && (got.Some? ==> got.value.0 !in accepted && Replay.Remembers(w', accepted + {got.value.0}))
            && (got.None? ==> Replay.Remembers(w', accepted))
  {
    hide Replay.CheckStep, Replay.Remembers, Open;
    if frame.Some? {
      match Open(world.env, frame.value)
      case Err(_) =>
      case Ok((h, _)) => Replay.CheckAgrees(w, accepted, h.sequence);
    }
  }

  /** The tracker of an open connection. */
  function WindowOf(conn: Conn): Replay.Window
    requires !conn.Closed?
  {
    conn.w
  }

  lemma WindowStep(world: World, st: State, a: Action, c: nat, accepted: set<u64>)
    requires On(a, c) && (c !in st.conns ==> accepted == {})
    requires c in st.conns && !st.conns[c].Closed? ==> Replay.Remembers(WindowOf(st.conns[c]), accepted)
    ensures var (st', out) := Step(world, st, a);
            && (Accepts(out).Some? ==> Accepts(out).value !in accepted && c in st'.conns)
            && (c !in st'.conns ==> c !in st.conns)
            && (c in st'.conns && !st'.conns[c].Closed? ==>
                  Replay.Remembers(WindowOf(st'.conns[c]),
                                   accepted + if Accepts(out).Some? then {Accepts(out).value} else {}))
  {
    hide Receive, Auth.Step, Replay.Remembers, Dispatch, TypeAuth, TypeAuthResponse;
    FreshRemembers();
    assert accepted + {} == accepted;
    if c in st.conns && !st.conns[c].Closed? && !a.Connect? {
      var w := WindowOf(st.conns[c]);
      ReceiveAgrees(world, w, accepted, a.frame);
      var (w', got) := Receive(world, w, a.frame);
      match a
      case OnAuth(_, _, _, _, _) =>
        if st.conns[c].AwaitAuth? && got.Some? {
          assert Accepts(AuthPhase(world, st.auth, w, a).2) == Some(got.value.0);
        }
      case OnResponse(_, _, _, _, _) =>
        if st.conns[c].AwaitResponse? && got.Some? {
          assert Accepts(ResponsePhase(world, st.auth, w, st.conns[c].service, a).2) == Some(got.value.0);
        }
      case OnMessage(_, _, _, _) =>
        if st.conns[c].Authenticated? && got.Some? {
          assert Accepts(LoopTurn(world, w, st.conns[c].peer, a).1) == Some(got.value.0);
        }
    }
  }

  lemma FreshRemembers()
    ensures Replay.Remembers(Replay.Fresh(Replay.DEFAULT_WINDOW), {})
  {
  }

  lemma {:induction false} WindowTracks(world: World, known: map<string, seq<string>>, run: seq<Action>, i: nat, c: nat)
    requires i <= |run|
    ensures var st := At(world, known, run, i);
            && (c !in st.conns ==> AcceptedOn(world, known, run, i, c) == {})
            && (c in st.conns && !st.conns[c].Closed? ==>
                  Replay.Remembers(WindowOf(st.conns[c]), AcceptedOn(world, known, run, i, c)))
  {
    hide Step, Replay.Remembers;
    if i > 0 {
      WindowTracks(world, known, run, i - 1, c);
      var st := At(world, known, run, i - 1);
      if On(run[i - 1], c) {
        WindowStep(world, st, run[i - 1], c, AcceptedOn(world, known, run, i - 1, c));
      } else {
        OthersUntouched(world, st, run[i - 1], c);
        assert AcceptedOn(world, known, run, i, c) == AcceptedOn(world, known, run, i - 1, c);
      }
    }
  }

  lemma {:induction false} AcceptedEarlier(world: World, known: map<string, seq<string>>, run: seq<Action>, i: nat,
                                           j: nat, c: nat)
    requires i < j <= |run| && On(run[i], c) && Accepts(OutcomeAt(world, known, run, i)).Some?
    ensures Accepts(OutcomeAt(world, known, run, i)).value in AcceptedOn(world, known, run, j, c)
  {
    hide OutcomeAt;
    if i < j - 1 {
      AcceptedEarlier(world, known, run, i, j - 1, c);
    }
  }

  /** No sequence number is accepted twice on one connection, so no two dispatched messages share one. */
  lemma NumbersDistinct(world: World, known: map<string, seq<string>>, run: seq<Action>, i: nat, j: nat, c: nat)
    requires i < j < |run| && On(run[i], c) && On(run[j], c)
    requires Accepts(OutcomeAt(world, known, run, i)).Some? && Accepts(OutcomeAt(world, known, run, j)).Some?
    ensures Accepts(OutcomeAt(world, known, run, i)) != Accepts(OutcomeAt(world, known, run, j))
  {
    hide Step, AcceptedOn, Replay.Remembers;
    AcceptedEarlier(world, known, run, i, j, c);
    WindowTracks(world, known, run, j, c);
    WindowStep(world, At(world, known, run, j), run[j], c, AcceptedOn(world, known, run, j, c));
  }

  lemma ClosingStep(world: World, st: State, a: Action, c: nat)
    requires On(a, c)
    ensures var (st', out) := Step(world, st, a);
            && (c in st.conns && st.conns[c].Closed? ==> st' == st && out.NoOp?)
            && (out.ReceiveFailed? || out.HandshakeRefused? || out.SessionExpired? ==>
                c in st'.conns && st'.conns[c].Closed?)
  {
    hide Receive, Auth.Step, Dispatch, TypeAuth, TypeAuthResponse;
  }

  lemma {:induction false} StaysClosed(world: World, known: map<string, seq<string>>, run: seq<Action>, i: nat, j: nat,
                                       c: nat)
    requires i <= j <= |run|
    requires c in At(world, known, run, i).conns && At(world, known, run, i).conns[c].Closed?
    ensures c in At(world, known, run, j).conns && At(world, known, run, j).conns[c].Closed?
  {
    hide Step;
    if i < j {
      StaysClosed(world, known, run, i, j - 1, c);
      var st := At(world, known, run, j - 1);
      if On(run[j - 1], c) {
        ClosingStep(world, st, run[j - 1], c);
      } else {
        OthersUntouched(world, st, run[j - 1], c);
      }
    }
  }

  /** After a failed Receive, a refused handshake or an expired session nothing more happens on the connection. */
  lemma NothingAfterFailure(world: World, known: map<string, seq<string>>, run: seq<Action>, i: nat, j: nat, c: nat)
    requires i < j < |run| && On(run[i], c) && On(run[j], c)
    requires var out := OutcomeAt(world, known, run, i);
             out.ReceiveFailed? || out.HandshakeRefused? || out.SessionExpired?
    ensures OutcomeAt(world, known, run, j).NoOp?
  {
    hide Step;
    ClosingStep(world, At(world, known, run, i), run[i], c);
    StaysClosed(world, known, run, i + 1, j, c);
    ClosingStep(world, At(world, known, run, j), run[j], c);
  }

  // ------------------------------------------------------------- honest clients

  lemma HonestReceive(world: World, w: Replay.Window, n: u64, msg: Message)
    requires Lawful(world.env) && Marshals(world.env, n, msg) && n > w.maxSeen
    ensures var (w', got) := Receive(world, w, Some(FrameFor(world.env, n, msg)));
            got == Some((n, Arrives(msg))) && w'.maxSeen == n
  {
    hide Open, FrameFor, Arrives;
    SentOpens(world.env, n, msg);
  }

  /** A client that knows the secret and answers its own challenge is logged in with its service's capabilities. */
  lemma HonestLogin(world: World, st: State, c: nat, s: string, hello: Message, nonce: seq<byte>, t1: int,
                    answer: Message, token: string, t2: int)
    requires Lawful(world.env) && c !in st.conns && s in st.auth.known
    requires Marshals(world.env, 1, hello) && Marshals(world.env, 2, answer)
    requires hello.typ == TypeAuth() && world.parseAuth(hello.payload) == Some(s)
    requires answer.typ == TypeAuthResponse() && world.parseResponse(answer.payload) == Some(world.env.sign(nonce))
    ensures var env := world.env;
            var st1 := Step(world, st, Connect(c)).0;
            var (st2, o2) := Step(world, st1, OnAuth(c, Some(FrameFor(env, 1, hello)), Some(nonce), t1, true));
            var (st3, o3) := Step(world, st2, OnResponse(c, Some(FrameFor(env, 2, answer)), Some(token), t2, true));
            && o2 == Challenged(1, s)
            && o3 == LoggedIn(2, Auth.Peer(s, st.auth.known[s], token, t2, st.auth.ttl))
            && st3.conns[c].Authenticated? && st3.conns[c].peer == o3.peer && st3.conns[c].w.maxSeen == 2
  {
    hide Receive, FrameFor, TypeAuth, TypeAuthResponse, Replay.CheckStep;
    NamedRoundTrip(hello.typ);
    NamedRoundTrip(answer.typ);
    var w := Replay.Fresh(Replay.DEFAULT_WINDOW);
    HonestReceive(world, w, 1, hello);
    HonestReceive(world, Receive(world, w, Some(FrameFor(world.env, 1, hello))).0, 2, answer);
  }

  /** Once logged in, every in-order message within the session and the service's capabilities is dispatched. */
  lemma HonestDispatch(world: World, st: State, c: nat, n: u64, msg: Message, now: int)
    requires Lawful(world.env) && Marshals(world.env, n, msg)
    requires c in st.conns && st.conns[c].Authenticated? && n > st.conns[c].w.maxSeen
    requires Auth.InTime(st.conns[c].peer, now)
    requires msg.capability == "" || msg.capability in st.conns[c].peer.capabilities
    ensures var (st', out) := Step(world, st, OnMessage(c, Some(FrameFor(world.env, n, msg)), now, true));
            && out == Dispatched(n, Arrives(msg), Dispatch(world, Arrives(msg)))
            && st'.conns[c].Authenticated? && st'.conns[c].peer == st.conns[c].peer && st'.conns[c].w.maxSeen == n
  {
    hide Receive, FrameFor, Dispatch, ToByte, FromByte;
    HonestReceive(world, st.conns[c].w, n, msg);
  }

  // ---------------------------------------------------------------- authorisation

  /**
   A guarded handler reaches its allowed branch only if a capability configured
   for the logged-in service permits the action, or the allowlist grants it to
   the empty capability.
   */
  lemma AllowedIsConfigured(world: World, known: map<string, seq<string>>, run: seq<Action>, i: nat)
    returns (s: string)
    requires i < |run| && OutcomeAt(world, known, run, i).Dispatched? && OutcomeAt(world, known, run, i).allowed.Some?
    ensures var action := OutcomeAt(world, known, run, i).allowed.value;
            && s in known
            && (exists b, peer :: 0 <= b < i && LoggedInAt(world, known, run, b, run[i].c, peer) && peer.serviceId == s)
            && (Capability.Permits(world.allow, known[s], action) || Capability.Permits(world.allow, [""], action))
  {
    hide Carries, TypeAuth, TypeAuthResponse, Step, GuardedAction;
    DispatchNeeds(world, At(world, known, run, i), run[i]);
    var a, b, peer := DispatchOnlyAuthorised(world, known, run, i);
    s := peer.serviceId;
  }

  /** The services and capabilities main configures. */
  function Known(): map<string, seq<string>> {
    map["nia.min" := ["ui:control", "device:read"],
        "nia.framework" := ["ui:control", "device:read", "device:write"],
        "ail.min.agent" := ["ui:control"],
        "ail.framework" := ["ui:control", "device:read", "device:write", "system:restricted"],
        "ebot.client" := ["ai:chat"]]
  }

  function Actions(): map<string, seq<string>> {
    map["ui:control" := ["ui.cursor.move", "ui.click", "ui.scroll"],
        "device:read" := ["device.sensor.read", "device.status"],
        "device:write" := ["device.actuator.write"],
        "system:restricted" := ["system.reboot", "system.update"],
        "ai:chat" := ["ai.chat.send", "ai.complete.send"]]
  }

  /** What the configured allowlist says about the guarded actions, capability by capability. */
  lemma ConfiguredActions(c: string)
    ensures var al := Capability.FromConfig(Actions());
            && (c in al && "ui.cursor.move" in al[c] <==> c == "ui:control")
            && (c in al && "ai.chat.send" in al[c] <==> c == "ai:chat")
            && (c in al && "ai.complete.send" in al[c] <==> c == "ai:chat")
  {
    if c in Actions() {
      assert c == "ui:control" || c == "device:read" || c == "device:write" || c == "system:restricted"
             || c == "ai:chat";
    }
  }

  lemma ConfiguredServices(s: string)
    requires s in Known()
    ensures "ui:control" in Known()[s] <==> s != "ebot.client"
    ensures "ai:chat" in Known()[s] <==> s == "ebot.client"
  {
  }

  /** What each service may do under the shipped tables. */
  ghost predicate Entitled(s: string, action: string) {
    || (action in {"ui.cursor.move", "ui.click", "ui.scroll"}
        && s in {"nia.min", "nia.framework", "ail.min.agent", "ail.framework"})
    || (action in {"device.sensor.read", "device.status"} && s in {"nia.min", "nia.framework", "ail.framework"})
    || (action == "device.actuator.write" && s in {"nia.framework", "ail.framework"})
    || (action in {"system.reboot", "system.update"} && s == "ail.framework")
    || (action in {"ai.chat.send", "ai.complete.send"} && s == "ebot.client")
  }

  /** The shipped tables, capabilities and actions together, permit exactly that. */
  lemma ShippedPermissions(s: string, action: string)
    ensures s in Known() && Capability.Permits(Capability.FromConfig(Actions()), Known()[s], action)
            <==> Entitled(s, action)
  {
    if s in Known() && Capability.Permits(Capability.FromConfig(Actions()), Known()[s], action) {
      PermittedIsEntitled(s, action);
    }
    if Entitled(s, action) {
      EntitledIsPermitted(s, action);
    }
  }

  lemma PermittedIsEntitled(s: string, action: string)
    requires s in Known() && Capability.Permits(Capability.FromConfig(Actions()), Known()[s], action)
    ensures Entitled(s, action)
  {
    var c :| c in Known()[s] && c in Actions() && action in Actions()[c];
    assert c in Actions();
  }

  lemma EntitledIsPermitted(s: string, action: string)
    requires Entitled(s, action)
    ensures s in Known() && Capability.Permits(Capability.FromConfig(Actions()), Known()[s], action)
  {
    var c := if action in Actions()["ui:control"] then "ui:control"
             else if action in Actions()["device:read"] then "device:read"
             else if action in Actions()["device:write"] then "device:write"
             else if action in Actions()["system:restricted"] then "system:restricted" else "ai:chat";
    assert c in Known()[s] && c in Actions() && action in Actions()[c];
  }

  /**
   With the shipped allowlist, exactly when a guarded handler reaches its allowed
   branch: intents under ui:control, chat and completion under ai:chat.
   */
  lemma ShippedAllows(world: World, msg: Message)
    requires world.allow == Capability.FromConfig(Actions())
    ensures Dispatch(world, msg).Some? <==>
              && world.decodes(msg.typ, msg.payload)
              && (|| (msg.typ == TypeIntent() && msg.capability == "ui:control")
                  || ((msg.typ == TypeChat() || msg.typ == TypeComplete()) && msg.capability == "ai:chat"))
    ensures Dispatch(world, msg).Some? ==>
              Dispatch(world, msg).value == if msg.typ == TypeIntent() then "ui.cursor.move"
                                            else if msg.typ == TypeChat() then "ai.chat.send" else "ai.complete.send"
  {
    hide Actions, TypeIntent, TypeChat, TypeComplete;
    NamedTypesDiffer();
    ConfiguredActions(msg.capability);
  }

  /** With the shipped tables: intents need a service other than ebot.client, chat and completion need ebot.client. */
  lemma ShippedConfiguration(world: World, run: seq<Action>, i: nat) returns (s: string)
    requires world.allow == Capability.FromConfig(Actions())
    requires i < |run| && OutcomeAt(world, Known(), run, i).Dispatched?
    requires OutcomeAt(world, Known(), run, i).allowed.Some?
    ensures var typ := OutcomeAt(world, Known(), run, i).msg.typ;
            && s in Known()
            && (exists b, peer ::
                  0 <= b < i && LoggedInAt(world, Known(), run, b, run[i].c, peer) && peer.serviceId == s)
            && (typ == TypeIntent() ==> s != "ebot.client")
            && (typ == TypeChat() || typ == TypeComplete() ==> s == "ebot.client")
            && (typ == TypeIntent() || typ == TypeChat() || typ == TypeComplete())
  {
    hide Step, Known, Actions, At, Dispatch, TypeIntent, TypeChat, TypeComplete;
    DispatchNeeds(world, At(world, Known(), run, i), run[i]);
    var a, b, peer := DispatchOnlyAuthorised(world, Known(), run, i);
    s := peer.serviceId;
    ShippedAllows(world, OutcomeAt(world, Known(), run, i).msg);
    NamedTypesDiffer();
    ConfiguredServices(s);
  }
}
