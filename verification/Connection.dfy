/**
 handleConnection (cmd/eipc-server/main.go) as it is written: a method over an
 endpoint, the shared authenticator and the registered handlers, proved to be a
 run of the server's state machine.
 */
module Connection {
  import opened Bytes
  import opened ByteStreams
  import opened Frames
  import opened MessageTypes
  import opened Endpoint
  import opened Server
  import Transport
  import Replay
  import Auth
  import Capability

  /**
   What the rest of the world gives one call.  Clock and fate of sends go by the
   number of the Receive before them; `others(i)` is what other goroutines call on
   the shared authenticator before step `i`.
   */
  datatype Inputs = Inputs(nonce: Option<seq<byte>>, token: Option<string>, now: nat -> int, sent: nat -> bool,
                           others: nat -> seq<Auth.Op>)

  /**
   The router with the handlers main registers.  What is handed to Dispatch,
   and on to the health service, is on record.
   */
  class Handlers {
    const checker: Capability.Checker
    var calls: seq<Message>
    var health: seq<(string, string)>

    constructor (checker: Capability.Checker)
      ensures this.checker == checker && calls == [] && health == []
    {
      this.checker, calls, health := checker, [], [];
    }

    /** The health service was told of exactly the readable heartbeats among the messages. */
    ghost predicate Valid(world: World)
      reads this, checker
    {
      checker.allowlist == world.allow && health == Heartbeats(world, calls)
    }

    /** router.Dispatch: the guarded handler that reached its allowed branch, and whether there is a reply to send. */
    method Dispatch(world: World, msg: Message) returns (allowed: Option<string>, replied: bool)
      requires Valid(world)
      modifies this
      ensures Valid(world) && calls == old(calls) + [msg]
      ensures allowed == Server.Dispatch(world, msg) && replied == Replies(world, msg)
    {
      hide TypeHeartbeat, Heartbeats, GuardedAction;
      HeartbeatsNext(world, calls, msg);
      calls := calls + [msg];
      var action := GuardedAction(msg.typ);
      if action.None? {
        if msg.typ == TypeHeartbeat() {
          var beat := world.parseHeartbeat(msg.payload);
          if beat.Some? {
            health := health + [beat.value];
          }
        }
        return None, false;
      }
      HeartbeatUnguarded(msg.typ);
      if !world.decodes(msg.typ, msg.payload) {
        return None, false;
      }
      var ok := checker.Check([msg.capability], action.value);
      if !ok {
        return None, false;
      }
      return action, world.replyMarshals(msg);
    }
  }

  /** What the heartbeat handler reports for these messages. */
  function Heartbeats(world: World, msgs: seq<Message>): seq<(string, string)> {
    if |msgs| == 0 then []
    else
      var last := msgs[|msgs| - 1];
      Heartbeats(world, msgs[..|msgs| - 1])
      + if last.typ == TypeHeartbeat() && world.parseHeartbeat(last.payload).Some?
        then [world.parseHeartbeat(last.payload).value] else []
  }

  lemma HeartbeatsNext(world: World, msgs: seq<Message>, msg: Message)
    ensures Heartbeats(world, msgs + [msg])
         == Heartbeats(world, msgs)
            + if msg.typ == TypeHeartbeat() && world.parseHeartbeat(msg.payload).Some?
              then [world.parseHeartbeat(msg.payload).value] else []
  {
    hide TypeHeartbeat;
    assert (msgs + [msg])[..|msgs|] == msgs;
  }

  lemma HeartbeatUnguarded(typ: MessageType)
    requires GuardedAction(typ).Some?
    ensures typ != TypeHeartbeat()
  {
    hide TypeIntent, TypeChat, TypeComplete, TypeHeartbeat;
    NamedTypesDiffer();
  }

  // ------------------------------------------------------------------ the stream

  lemma NextShrinks(s: seq<byte>)
    ensures Transport.Next(s).0.Ok? ==> |Transport.Next(s).1| < |s|
  {
    hide FromBE, Parse;
  }

  /** What successive Receives get off the stream, up to the first failure. */
  function Delivered(s: seq<byte>): (ds: seq<Option<Frame>>)
    ensures |ds| > 0
    decreases |s|
  {
    NextShrinks(s);
    match Transport.Next(s)
    case (Err(_), _) => [None]
    case (Ok(f), rest) => [Some(f)] + Delivered(rest)
  }

  /** The action of the machine that follows Receive number `i`. */
  function TurnAction(c: nat, i: nat, frame: Option<Frame>, inp: Inputs): (a: Action)
    ensures On(a, c)
  {
    if i == 0 then OnAuth(c, frame, inp.nonce, inp.now(0), inp.sent(0))
    else if i == 1 then OnResponse(c, frame, inp.token, inp.now(1), inp.sent(1))
    else OnMessage(c, frame, inp.now(i), inp.sent(i))
  }

  lemma StreamReceive(world: World, w: Replay.Window, s: seq<byte>)
    ensures var (r, w', rest) := ServerReceive(world.env, w, s);
            var (w1, got) := Receive(world, w, Delivered(s)[0]);
            && w1 == w' && (got.Some? <==> r.Ok?) && (r.Ok? ==> got.value.1 == r.value)
            && (r.Ok? ==> Delivered(s)[1..] == Delivered(rest) && |rest| < |s|)
  {
    hide Transport.Next, Open, Replay.CheckStep;
    NextShrinks(s);
  }

  /** endpoint.Receive; `n` is the sequence number it accepted. */
  method ReceiveFrom(world: World, endpoint: ServerEndpoint) returns (msg: Option<Message>, ghost n: u64)
    requires endpoint.env == world.env
    modifies endpoint.conn, endpoint.replay
    ensures (endpoint.replay.Value(), if msg.Some? then Some((n, msg.value)) else None)
         == Receive(world, old(endpoint.replay.Value()), Delivered(old(endpoint.conn.pending))[0])
    ensures msg.Some? ==> Continues(old(endpoint.conn.pending), endpoint.conn.pending)
  {
    hide ServerReceive, Receive, Delivered;
    ghost var w, s := endpoint.replay.Value(), endpoint.conn.pending;
    StreamReceive(world, w, s);
    ghost var got := Receive(world, w, Delivered(s)[0]).1;
    n := if got.Some? then got.value.0 else 0;
    var r := endpoint.Receive();
    return if r.Ok? then Some(r.value) else None, n;
  }

  /** The rest of the stream delivers the rest of what was delivered, and is shorter. */
  ghost predicate Continues(s: seq<byte>, rest: seq<byte>) { Delivered(s)[1..] == Delivered(rest) && |rest| < |s| }

  // ------------------------------------------------------------- handleConnection

  /** Steps 1 and 2: receive the auth request, create and send the challenge; the service it was for. */
  method RequestChallenge(world: World, auth: Auth.Authenticator, endpoint: ServerEndpoint, inp: Inputs, ghost c: nat)
    returns (service: Option<string>, ghost out: Outcome)
    requires auth.mac == world.env.sign && endpoint.env == world.env
    modifies auth, endpoint.conn, endpoint.replay
    ensures (auth.Value(), if service.Some? then AwaitResponse(endpoint.replay.Value(), service.value) else Closed, out)
         == AuthPhase(world, old(auth.Value()), old(endpoint.replay.Value()),
                      TurnAction(c, 0, Delivered(old(endpoint.conn.pending))[0], inp))
    ensures service.Some? ==> Continues(old(endpoint.conn.pending), endpoint.conn.pending)
  {
    hide Receive, Auth.Step, TypeAuth, Delivered, Continues;
    ghost var n;
    var msg;
    msg, n := ReceiveFrom(world, endpoint);
    if msg.None? {
      return None, ReceiveFailed;
    }
    if msg.value.typ != TypeAuth() {
      return None, HandshakeRefused(n);
    }
    service := world.parseAuth(msg.value.payload);
    if service.None? {
      return None, HandshakeRefused(n);
    }
    var challenge := auth.Create(service.value, inp.nonce, inp.now(0));
    if !challenge.Challenged? || !inp.sent(0) {
      return None, HandshakeRefused(n);
    }
    out := Challenged(n, service.value);
  }

  /** Steps 3 and 4: receive the response, verify it, grant the capabilities and send the result. */
  method CheckResponse(world: World, auth: Auth.Authenticator, endpoint: ServerEndpoint, service: string, inp: Inputs,
                       ghost c: nat)
    returns (peer: Option<Auth.Peer>, ghost out: Outcome)
    requires auth.mac == world.env.sign && endpoint.env == world.env
    modifies auth, endpoint, endpoint.conn, endpoint.replay
    ensures (auth.Value(), if peer.Some? then Authenticated(endpoint.replay.Value(), peer.value) else Closed, out)
         == ResponsePhase(world, old(auth.Value()), old(endpoint.replay.Value()), service,
                          TurnAction(c, 1, Delivered(old(endpoint.conn.pending))[0], inp))
    ensures peer.Some? ==> Continues(old(endpoint.conn.pending), endpoint.conn.pending)
    ensures peer.Some? ==> endpoint.peerCapabilities == peer.value.capabilities
  {
    hide Receive, Auth.Step, TypeAuthResponse, Delivered, Continues;
    ghost var n;
    var msg;
    msg, n := ReceiveFrom(world, endpoint);
    if msg.None? {
      return None, ReceiveFailed;
    }
    if msg.value.typ != TypeAuthResponse() {
      return None, HandshakeRefused(n);
    }
    var response := world.parseResponse(msg.value.payload);
    if response.None? {
      return None, HandshakeRefused(n);
    }
    var verified := auth.Verify(service, response.value, inp.token, inp.now(1));
    if !verified.Verified? {
      return None, HandshakeRefused(n);
    }
    endpoint.SetPeerCapabilities(verified.peer.capabilities);
    if !inp.sent(1) {
      return None, HandshakeRefused(n);
    }
    return Some(verified.peer), LoggedIn(n, verified.peer);
  }

  /** One turn of the message loop. */
  method ServeMessage(world: World, endpoint: ServerEndpoint, handlers: Handlers, peer: Auth.Peer, inp: Inputs, i: nat,
                      ghost c: nat)
    returns (goesOn: bool, ghost out: Outcome)
    requires endpoint.env == world.env && handlers.Valid(world)
    requires endpoint.peerCapabilities == peer.capabilities && i >= 2
    modifies endpoint.conn, endpoint.replay, handlers
    ensures (if goesOn then Authenticated(endpoint.replay.Value(), peer) else Closed, out)
         == LoopTurn(world, old(endpoint.replay.Value()), peer,
                     TurnAction(c, i, Delivered(old(endpoint.conn.pending))[0], inp))
    ensures handlers.Valid(world) && handlers.calls == old(handlers.calls) + Handed([out])
    ensures goesOn ==> Continues(old(endpoint.conn.pending), endpoint.conn.pending)
  {
    hide Receive, Server.Dispatch, Replies, Delivered, Continues, Heartbeats;
    ghost var n;
    var msg;
    msg, n := ReceiveFrom(world, endpoint);
    if msg.None? {
      return false, ReceiveFailed;
    }
    if Auth.IsExpired(peer, inp.now(i)) {
      return false, SessionExpired(n);
    }
    var valid := endpoint.ValidateCapability(msg.value.capability);
    if !valid {
      return true, CapabilityDenied(n);
    }
    var allowed, replied := handlers.Dispatch(world, msg.value);
    goesOn := !replied || inp.sent(i);
    out := Dispatched(n, msg.value, allowed);
  }

  /** The messages a log says were handed to the handlers. */
  function Handed(log: seq<Outcome>): seq<Message> {
    if |log| == 0 then []
    else Handed(log[..|log| - 1]) + if log[|log| - 1].Dispatched? then [log[|log| - 1].msg] else []
  }

  lemma HandedSnoc(log: seq<Outcome>, out: Outcome)
    ensures Handed(log + [out]) == Handed(log) + Handed([out])
  {
    assert (log + [out])[..|log|] == log && [out][..0] == [];
  }

  lemma HandedNothing(out: Outcome)
    ensures Handed([]) == [] && (!out.Dispatched? ==> Handed([out]) == [])
  {
    assert [out][..0] == [];
  }

  // ------------------------------------------------------ the call as a run

  /** One call of handleConnection: connection `c`, new in state `st`, gets the deliveries `ds`. */
  datatype Call = Call(world: World, st: State, c: nat, ds: seq<Option<Frame>>, inp: Inputs)

  function Elsewheres(ops: seq<Auth.Op>): seq<Action> { seq(|ops|, i requires 0 <= i < |ops| => Elsewhere(ops[i])) }

  /** How many actions the first `n` steps are, and where step `k` is among them. */
  function Length(inp: Inputs, n: nat): (l: nat)
    ensures l > n
  {
    if n == 0 then 1 else Length(inp, n - 1) + |inp.others(n - 1)| + 1
  }

  function Place(inp: Inputs, k: nat): nat { Length(inp, k) + |inp.others(k)| }

  /** The machine's actions up to and including the first `n` steps: each after what the others do before it. */
  function Schedule(x: Call, n: nat): (acts: seq<Action>)
    requires n <= |x.ds|
    ensures |acts| == Length(x.inp, n)
  {
    if n == 0 then [Connect(x.c)]
    else Schedule(x, n - 1) + Elsewheres(x.inp.others(n - 1)) + [TurnAction(x.c, n - 1, x.ds[n - 1], x.inp)]
  }

  lemma {:induction false} ScheduleGrows(x: Call, m: nat, n: nat)
    requires m <= n <= |x.ds|
    ensures Schedule(x, m) <= Schedule(x, n)
    decreases n
  {
    hide TurnAction;
    if m < n {
      ScheduleGrows(x, m, n - 1);
    }
  }

  lemma ScheduleTurn(x: Call, n: nat, k: nat)
    requires k < n <= |x.ds|
    ensures Place(x.inp, k) < Length(x.inp, n) && Schedule(x, n)[Place(x.inp, k)] == TurnAction(x.c, k, x.ds[k], x.inp)
  {
    hide TurnAction;
    ScheduleGrows(x, k + 1, n);
    assert Schedule(x, k + 1)[Place(x.inp, k)] == TurnAction(x.c, k, x.ds[k], x.inp);
  }

  lemma {:induction false} PlacesGrow(inp: Inputs, j: nat, k: nat)
    requires j < k
    ensures Place(inp, j) < Length(inp, k) <= Place(inp, k)
    decreases k
  {
    if j < k - 1 {
      PlacesGrow(inp, j, k - 1);
    }
  }

  /** Between the steps there are only the others. */
  lemma {:induction false} ScheduleOthers(x: Call, n: nat, k: nat, m: nat)
    requires k < n <= |x.ds| && m < |x.inp.others(k)|
    ensures Length(x.inp, k) + m < Length(x.inp, n)
    ensures Schedule(x, n)[Length(x.inp, k) + m] == Elsewhere(x.inp.others(k)[m])
  {
    hide TurnAction;
    ScheduleGrows(x, k + 1, n);
    assert Schedule(x, k + 1)[Length(x.inp, k) + m] == Elsewheres(x.inp.others(k))[m];
  }

  /** Whatever is not the connecting or the others is a step. */
  lemma {:induction false} StepPlaces(x: Call, n: nat, j: nat) returns (k: nat)
    requires n <= |x.ds| && j < Length(x.inp, n)
    requires !Schedule(x, n)[j].Connect? && !Schedule(x, n)[j].Elsewhere?
    ensures k < n && j == Place(x.inp, k)
  {
    hide TurnAction;
    if n > 0 {
      if j < Length(x.inp, n - 1) {
        k := StepPlaces(x, n - 1, j);
      } else {
        k := n - 1;
      }
    }
  }

  /** The machine run on `acts` from `st`. */
  function After(world: World, st: State, acts: seq<Action>): (r: (State, seq<Outcome>))
    ensures |r.1| == |acts|
  {
    if |acts| == 0 then (st, [])
    else
      var (st', outs) := After(world, st, acts[..|acts| - 1]);
      var (end, out) := Step(world, st', acts[|acts| - 1]);
      (end, outs + [out])
  }

  lemma AfterNext(world: World, st: State, acts: seq<Action>, a: Action)
    ensures var (st', outs) := After(world, st, acts);
            After(world, st, acts + [a]) == (Step(world, st', a).0, outs + [Step(world, st', a).1])
  {
    hide Step;
    assert (acts + [a])[..|acts|] == acts;
  }

  lemma {:induction false} AfterPrefix(world: World, st: State, a: seq<Action>, b: seq<Action>)
    requires a <= b
    ensures After(world, st, a).1 <= After(world, st, b).1
    decreases |b|
  {
    hide Step;
    if |a| < |b| {
      AfterPrefix(world, st, a, b[..|b| - 1]);
    } else {
      assert a == b;
    }
  }

  /** The others change the authenticator and nothing else. */
  lemma {:induction false} AfterOthers(world: World, st: State, acts: seq<Action>, ops: seq<Auth.Op>)
    ensures var st' := After(world, st, acts).0;
            After(world, st, acts + Elsewheres(ops)).0 == st'.(auth := Auth.At(world.env.sign, st'.auth, ops, |ops|))
    decreases |ops|
  {
    hide Auth.Step, After;
    if |ops| == 0 {
      assert acts + Elsewheres(ops) == acts;
    } else {
      var init, last := ops[..|ops| - 1], ops[|ops| - 1];
      AfterOthers(world, st, acts, init);
      assert ops == init + [last];
      assert acts + Elsewheres(ops) == acts + Elsewheres(init) + [Elsewhere(last)];
      AfterNext(world, st, acts + Elsewheres(init), Elsewhere(last));
      Auth.AtPrefix(world.env.sign, After(world, st, acts).0.auth, init, [last], |init|);
    }
  }

  /** Only the actions before it bear on a state. */
  lemma {:induction false} AtPrefix(world: World, known: map<string, seq<string>>, a: seq<Action>, b: seq<Action>,
                                    i: nat)
    requires i <= |a|
    ensures At(world, known, a + b, i) == At(world, known, a, i)
  {
    hide Step;
    if i > 0 {
      AtPrefix(world, known, a, b, i - 1);
    }
  }

  /** Run on from what a run reached, the machine does what the longer run does. */
  lemma {:induction false} RunsOn(world: World, known: map<string, seq<string>>, run: seq<Action>, acts: seq<Action>)
    ensures var (end, outs) := After(world, At(world, known, run, |run|), acts);
            && end == At(world, known, run + acts, |run| + |acts|)
            && forall k :: 0 <= k < |acts| ==> outs[k] == OutcomeAt(world, known, run + acts, |run| + k)
    decreases |acts|
  {
    hide Step;
    if |acts| == 0 {
      assert run + acts == run;
    } else {
      var init, last := acts[..|acts| - 1], acts[|acts| - 1];
      RunsOn(world, known, run, init);
      assert run + acts == (run + init) + [last];
      var st := At(world, known, run, |run|);
      var outs, outs' := After(world, st, init).1, After(world, st, acts).1;
      AtPrefix(world, known, run + init, [last], |run| + |init|);
      forall k | 0 <= k < |acts| ensures outs'[k] == OutcomeAt(world, known, run + acts, |run| + k) {
        if k < |init| {
          AtPrefix(world, known, run + init, [last], |run| + k);
          assert outs'[k] == outs[k];
        }
      }
    }
  }

  /** After the steps whose outcomes are `log`, the machine stands at `auth` and `conn`. */
  ghost predicate Stands(x: Call, auth: Auth.State, conn: Conn, log: seq<Outcome>) {
    && |log| <= |x.ds|
    && var (end, outs) := After(x.world, x.st, Schedule(x, |log|));
       && end == State(auth, x.st.conns[x.c := conn])
       && forall k :: 0 <= k < |log| ==> Place(x.inp, k) < |outs| && outs[Place(x.inp, k)] == log[k] && !log[k].NoOp?
  }

  lemma Connected(x: Call)
    requires x.c !in x.st.conns
    ensures Stands(x, x.st.auth, AwaitAuth(Replay.Fresh(Replay.DEFAULT_WINDOW)), [])
  {
    AfterNext(x.world, x.st, [], Connect(x.c));
    assert [] + [Connect(x.c)] == [Connect(x.c)];
  }

  /** What the authenticator is when step `k` comes, if it was `auth` after the step before. */
  function Met(x: Call, auth: Auth.State, k: nat): Auth.State {
    Auth.At(x.world.env.sign, auth, x.inp.others(k), |x.inp.others(k)|)
  }

  lemma Advance(x: Call, auth: Auth.State, conn: Conn, log: seq<Outcome>, auth': Auth.State, conn': Conn, out: Outcome)
    requires Stands(x, auth, conn, log) && |log| < |x.ds| && !out.NoOp?
    requires Step(x.world, State(Met(x, auth, |log|), x.st.conns[x.c := conn]),
                  TurnAction(x.c, |log|, x.ds[|log|], x.inp)) == (State(auth', x.st.conns[x.c := conn']), out)
    ensures Stands(x, auth', conn', log + [out])
  {
    hide Step, TurnAction, After, Schedule;
    var n, ops := |log|, x.inp.others(|log|);
    var acts, turn := Schedule(x, n), TurnAction(x.c, n, x.ds[n], x.inp);
    ScheduleNext(x, n);
    AfterOthers(x.world, x.st, acts, ops);
    AfterNext(x.world, x.st, acts + Elsewheres(ops), turn);
    AfterPrefix(x.world, x.st, acts, acts + Elsewheres(ops) + [turn]);
    var outs, outs' := After(x.world, x.st, acts).1, After(x.world, x.st, Schedule(x, n + 1)).1;
    forall k | 0 <= k < n + 1
      ensures Place(x.inp, k) < |outs'| && outs'[Place(x.inp, k)] == (log + [out])[k] && !(log + [out])[k].NoOp?
    {
      if k < n {
        assert outs'[Place(x.inp, k)] == outs[Place(x.inp, k)];
      }
    }
  }

  lemma ScheduleNext(x: Call, n: nat)
    requires n < |x.ds|
    ensures Schedule(x, n + 1) == Schedule(x, n) + Elsewheres(x.inp.others(n)) + [TurnAction(x.c, n, x.ds[n], x.inp)]
  {
  }

  lemma AuthAction(world: World, conns: map<nat, Conn>, c: nat, auth: Auth.State, w: Replay.Window, a: Action)
    requires a.OnAuth? && a.c == c
    ensures var (auth', conn, out) := AuthPhase(world, auth, w, a);
            Step(world, State(auth, conns[c := AwaitAuth(w)]), a) == (State(auth', conns[c := conn]), out)
            && !out.NoOp? && !out.Dispatched?
  {
    hide Receive, Auth.Step, TypeAuth;
    var conn := AuthPhase(world, auth, w, a).1;
    assert conns[c := AwaitAuth(w)][c := conn] == conns[c := conn];
  }

  lemma ResponseAction(world: World, conns: map<nat, Conn>, c: nat, auth: Auth.State, w: Replay.Window, s: string,
                       a: Action)
    requires a.OnResponse? && a.c == c
    ensures var (auth', conn, out) := ResponsePhase(world, auth, w, s, a);
            Step(world, State(auth, conns[c := AwaitResponse(w, s)]), a) == (State(auth', conns[c := conn]), out)
            && !out.NoOp? && !out.Dispatched?
  {
    hide Receive, Auth.Step, TypeAuthResponse;
    var conn := ResponsePhase(world, auth, w, s, a).1;
    assert conns[c := AwaitResponse(w, s)][c := conn] == conns[c := conn];
  }

  lemma LoopAction(world: World, conns: map<nat, Conn>, c: nat, auth: Auth.State, w: Replay.Window, peer: Auth.Peer,
                   a: Action)
    requires a.OnMessage? && a.c == c
    ensures var (conn, out) := LoopTurn(world, w, peer, a);
            Step(world, State(auth, conns[c := Authenticated(w, peer)]), a) == (State(auth, conns[c := conn]), out)
            && !out.NoOp?
  {
    hide Receive, Server.Dispatch;
    var conn := LoopTurn(world, w, peer, a).0;
    assert conns[c := Authenticated(w, peer)][c := conn] == conns[c := conn];
  }

  /** `log` is all that happens on the connection: it ends closed. */
  ghost predicate Complete(x: Call, auth: Auth.State, log: seq<Outcome>) { Stands(x, auth, Closed, log) }

  /** The connection is closed after `n` steps, so a step after that does nothing. */
  lemma NothingLater(x: Call, auth: Auth.State, log: seq<Outcome>, n: nat)
    requires Complete(x, auth, log) && |log| < n <= |x.ds|
    ensures Place(x.inp, |log|) < Length(x.inp, n)
    ensures After(x.world, x.st, Schedule(x, n)).1[Place(x.inp, |log|)].NoOp?
  {
    hide Step, TurnAction, After, Schedule, On;
    var k, ops := |log|, x.inp.others(|log|);
    var acts, turn := Schedule(x, k), TurnAction(x.c, k, x.ds[k], x.inp);
    ScheduleNext(x, k);
    AfterOthers(x.world, x.st, acts, ops);
    AfterNext(x.world, x.st, acts + Elsewheres(ops), turn);
    ClosingStep(x.world, After(x.world, x.st, acts + Elsewheres(ops)).0, turn, x.c);
    ScheduleGrows(x, k + 1, n);
    AfterPrefix(x.world, x.st, Schedule(x, k + 1), Schedule(x, n));
  }

  /** What happens on the connection is determined. */
  lemma CompleteUnique(x: Call, auth: Auth.State, log: seq<Outcome>, auth': Auth.State, log': seq<Outcome>)
    requires Complete(x, auth, log) && Complete(x, auth', log')
    ensures log == log' && auth == auth'
  {
    hide After, Schedule;
    if |log| < |log'| {
      NothingLater(x, auth, log, |log'|);
    } else if |log'| < |log| {
      NothingLater(x, auth', log', |log|);
    }
  }

  // ------------------------------------------------------------- handleConnection itself

  /**
   handleConnection on any byte stream, started in any state `st` of the server in
   which connection `c` is new, with other goroutines doing anything to the shared
   authenticator between its steps.  Its outcomes and its effect on the
   authenticator are those of the machine, the handlers are called with exactly
   the messages the log says, and if `st` is reachable the log is authorised.
   */
  method HandleConnection(world: World, auth: Auth.Authenticator, conn: Source, handlers: Handlers, inp: Inputs,
                          ghost c: nat, ghost st: State)
    returns (ghost log: seq<Outcome>)
    requires auth.mac == world.env.sign && handlers.Valid(world)
    requires st.auth == auth.Value() && c !in st.conns
    modifies auth, conn, handlers
    ensures Complete(Call(world, st, c, Delivered(old(conn.pending)), inp), auth.Value(), log)
    ensures handlers.Valid(world) && handlers.calls == old(handlers.calls) + Handed(log)
    ensures forall known, run :: At(world, known, run, |run|) == st ==>
              Authorised(Call(world, st, c, Delivered(old(conn.pending)), inp), known, log)
  {
    hide Stands, Complete, Delivered, Authorised, Handed, At, Heartbeats;
    ghost var x, calls := Call(world, st, c, Delivered(conn.pending), inp), handlers.calls;
    var endpoint := new ServerEndpoint(conn, world.env);
    Connected(x);
    var peer;
    peer, log := Handshake(world, auth, endpoint, inp, x);
    if peer.Some? {
      log := MessageLoop(world, auth, endpoint, handlers, peer.value, inp, x, calls, log);
    }
    Closing(x, auth.Value(), log);
  }

  /** Steps 1 to 4, each after what the others do before it. */
  method Handshake(world: World, auth: Auth.Authenticator, endpoint: ServerEndpoint, inp: Inputs, ghost x: Call)
    returns (peer: Option<Auth.Peer>, ghost log: seq<Outcome>)
    requires x.world == world && x.inp == inp && auth.mac == world.env.sign && endpoint.env == world.env
    requires x.ds == Delivered(endpoint.conn.pending)
    requires Stands(x, auth.Value(), AwaitAuth(endpoint.replay.Value()), [])
    modifies auth, endpoint, endpoint.conn, endpoint.replay
    ensures Stands(x, auth.Value(),
                   if peer.Some? then Authenticated(endpoint.replay.Value(), peer.value) else Closed, log)
    ensures Handed(log) == []
    ensures peer.Some? ==>
              && |log| == 2 < |x.ds| && x.ds[2..] == Delivered(endpoint.conn.pending)
              && endpoint.peerCapabilities == peer.value.capabilities
  {
    hide Step, Stands, AuthPhase, ResponsePhase, Delivered, Continues, Handed, Auth.At;
    log := [];
    HandedNothing(NoOp);
    assert x.ds[0..] == x.ds;

    ghost var auth0, w, s := auth.Value(), endpoint.replay.Value(), endpoint.conn.pending;
    ghost var out;
    auth.ApplyAll(inp.others(0));
    AuthAction(world, x.st.conns, x.c, auth.Value(), w, TurnAction(x.c, 0, x.ds[0], inp));
    var service;
    service, out := RequestChallenge(world, auth, endpoint, inp, x.c);
    Advance(x, auth0, AwaitAuth(w), log, auth.Value(),
            if service.Some? then AwaitResponse(endpoint.replay.Value(), service.value) else Closed, out);
    HandedSnoc(log, out);
    HandedNothing(out);
    log := log + [out];
    if service.None? {
      return None, log;
    }
    DropNext(x.ds, 0, s, endpoint.conn.pending);

    auth0, w, s := auth.Value(), endpoint.replay.Value(), endpoint.conn.pending;
    auth.ApplyAll(inp.others(1));
    ResponseAction(world, x.st.conns, x.c, auth.Value(), w, service.value, TurnAction(x.c, 1, x.ds[1], inp));
    peer, out := CheckResponse(world, auth, endpoint, service.value, inp, x.c);
    Advance(x, auth0, AwaitResponse(w, service.value), log, auth.Value(),
            if peer.Some? then Authenticated(endpoint.replay.Value(), peer.value) else Closed, out);
    HandedSnoc(log, out);
    HandedNothing(out);
    log := log + [out];
    if peer.Some? {
      DropNext(x.ds, 1, s, endpoint.conn.pending);
    }
  }

  /** The message loop, from where the handshake ended (outcomes `before`) until the connection does. */
  method MessageLoop(world: World, auth: Auth.Authenticator, endpoint: ServerEndpoint, handlers: Handlers,
                     peer: Auth.Peer, inp: Inputs, ghost x: Call, ghost calls: seq<Message>, ghost before: seq<Outcome>)
    returns (ghost log: seq<Outcome>)
    requires x.world == world && x.inp == inp && auth.mac == world.env.sign
    requires endpoint.env == world.env && endpoint.peerCapabilities == peer.capabilities
    requires handlers.Valid(world) && handlers.calls == calls + Handed(before)
    requires |before| == 2 < |x.ds| && x.ds[2..] == Delivered(endpoint.conn.pending)
    requires Stands(x, auth.Value(), Authenticated(endpoint.replay.Value(), peer), before)
    modifies auth, endpoint.conn, endpoint.replay, handlers
    ensures Stands(x, auth.Value(), Closed, log)
    ensures handlers.Valid(world) && handlers.calls == calls + Handed(log)
  {
    hide Step, Stands, LoopTurn, Delivered, Continues, Handed, Auth.At, Heartbeats;
    log := before;
    var i, goesOn := 2, true;
    while goesOn
      invariant 2 <= i == |log| && endpoint.peerCapabilities == peer.capabilities
      invariant goesOn ==> i < |x.ds| && x.ds[i..] == Delivered(endpoint.conn.pending)
      invariant Stands(x, auth.Value(), if goesOn then Authenticated(endpoint.replay.Value(), peer) else Closed, log)
      invariant handlers.Valid(world) && handlers.calls == calls + Handed(log)
      decreases goesOn, |endpoint.conn.pending|
    {
      ghost var auth0, w, s, out := auth.Value(), endpoint.replay.Value(), endpoint.conn.pending, NoOp;
      auth.ApplyAll(inp.others(i));
      LoopAction(world, x.st.conns, x.c, auth.Value(), w, peer, TurnAction(x.c, i, x.ds[i], inp));
      goesOn, out := ServeMessage(world, endpoint, handlers, peer, inp, i, x.c);
      Advance(x, auth0, Authenticated(w, peer), log, auth.Value(),
              if goesOn then Authenticated(endpoint.replay.Value(), peer) else Closed, out);
      HandedSnoc(log, out);
      log := log + [out];
      if goesOn {
        DropNext(x.ds, i, s, endpoint.conn.pending);
      }
      i := i + 1;
    }
  }

  lemma DropNext(ds: seq<Option<Frame>>, k: nat, s: seq<byte>, rest: seq<byte>)
    requires k < |ds| && ds[k..] == Delivered(s) && Continues(s, rest)
    ensures k + 1 < |ds| && ds[k + 1..] == Delivered(rest) && |rest| < |s|
  {
    hide Delivered;
    assert ds[k..][1..] == ds[k + 1..];
  }

  lemma Closing(x: Call, auth: Auth.State, log: seq<Outcome>)
    requires x.c !in x.st.conns && Stands(x, auth, Closed, log)
    ensures Complete(x, auth, log)
    ensures forall known, run :: At(x.world, known, run, |run|) == x.st ==> Authorised(x, known, log)
  {
    hide Stands, Authorised, At;
    forall known, run | At(x.world, known, run, |run|) == x.st ensures Authorised(x, known, log) {
      LogAuthorised(x, known, run, auth, log);
    }
  }

  // --------------------------------------------------------- what a log guarantees

  /** The response a delivered frame carries. */
  function ResponseIn(world: World, frame: Option<Frame>): Option<seq<byte>> {
    if frame.Some? && Open(world.env, frame.value).Ok?
    then world.parseResponse(Open(world.env, frame.value).value.1.payload) else None
  }

  /** The calls on the authenticator from this connection's challenge up to its response. */
  function Since(x: Call, service: string): seq<Auth.Op> {
    [Auth.CreateChallenge(service, x.inp.nonce, x.inp.now(0))] + x.inp.others(1)
  }

  /** The response is the HMAC of the last challenge for `s` among `ops`, which nobody tried to answer since. */
  ghost predicate AnswersLast(world: World, known: map<string, seq<string>>, ops: seq<Auth.Op>, s: string,
                              response: Option<seq<byte>>)
  {
    exists k :: 0 <= k < |ops| && Auth.Issues(known, ops[k], s) && response == Some(world.env.sign(ops[k].nonce.value))
                && forall m :: k < m < |ops| ==> !Auth.Issues(known, ops[m], s) && !Auth.Attempts(ops[m], s)
  }

  /** The handshake of the log: a TypeAuth message, and a TypeAuthResponse that answers the service's last challenge. */
  ghost predicate Admitted(x: Call, known: map<string, seq<string>>, log: seq<Outcome>) {
    && 2 <= |log| <= |x.ds| && log[0].Challenged? && log[1].LoggedIn?
    && Carries(x.world, x.ds[0], TypeAuth()) && Carries(x.world, x.ds[1], TypeAuthResponse())
    && AnswersLast(x.world, known, Since(x, log[0].service), log[0].service, ResponseIn(x.world, x.ds[1]))
    && log[1].peer.serviceId == log[0].service && log[0].service in known
    && log[1].peer.capabilities == known[log[0].service]
  }

  /** Outcome `k` comes after an admitted login, within its session and its service's capabilities. */
  ghost predicate InSession(x: Call, known: map<string, seq<string>>, log: seq<Outcome>, k: nat)
    requires k < |log| && log[k].Dispatched?
  {
    && 2 <= k && Admitted(x, known, log)
    && (log[1].peer.ttl <= 0 || x.inp.now(k) <= x.inp.now(1) + log[1].peer.ttl)
    && (log[k].msg.capability == "" || log[k].msg.capability in known[log[0].service])
  }

  predicate Fails(out: Outcome) { out.ReceiveFailed? || out.HandshakeRefused? || out.SessionExpired? }

  /**
   Every login is admitted, every dispatched message comes after it, within the
   session and with no capability or one configured for the service; no number
   is accepted twice; a failure is the last thing that happens.
   */
  ghost predicate Authorised(x: Call, known: map<string, seq<string>>, log: seq<Outcome>) {
    && (|log| >= 2 && log[1].LoggedIn? ==> Admitted(x, known, log))
    && (forall k :: 0 <= k < |log| && log[k].Dispatched? ==> InSession(x, known, log, k))
    && (forall j, k :: 0 <= j < k < |log| && Accepts(log[j]).Some? && Accepts(log[k]).Some? ==>
          Accepts(log[j]) != Accepts(log[k]))
    && forall k :: 0 <= k < |log| && Fails(log[k]) ==> k == |log| - 1
  }

  /** With no other challenge for the service in between, the login answered the challenge of its own connection. */
  lemma AnswersOwnChallenge(x: Call, known: map<string, seq<string>>, log: seq<Outcome>)
    requires Admitted(x, known, log)
    requires forall op :: op in x.inp.others(1) ==> !Auth.Issues(known, op, log[0].service)
    ensures x.inp.nonce.Some? && ResponseIn(x.world, x.ds[1]) == Some(x.world.env.sign(x.inp.nonce.value))
  {
    hide Carries, TypeAuth, TypeAuthResponse, ResponseIn;
    var ops, s := Since(x, log[0].service), log[0].service;
    var k :| 0 <= k < |ops| && Auth.Issues(known, ops[k], s)
             && ResponseIn(x.world, x.ds[1]) == Some(x.world.env.sign(ops[k].nonce.value))
             && forall m :: k < m < |ops| ==> !Auth.Issues(known, ops[m], s) && !Auth.Attempts(ops[m], s);
    assert forall m :: 1 <= m < |ops| ==> ops[m] == x.inp.others(1)[m - 1];
  }

  /** Outcome `k` of the log is that of the connection's step `k` in the longer run. */
  lemma LogIsTurn(x: Call, known: map<string, seq<string>>, run: seq<Action>, auth: Auth.State, log: seq<Outcome>,
                  k: nat)
    requires At(x.world, known, run, |run|) == x.st && Complete(x, auth, log) && k < |log|
    ensures |log| <= |x.ds|
    ensures var all, i := run + Schedule(x, |log|), |run| + Place(x.inp, k);
            && k < |x.ds| && i < |all| && all[i] == TurnAction(x.c, k, x.ds[k], x.inp) && On(all[i], x.c)
            && OutcomeAt(x.world, known, all, i) == log[k] && !log[k].NoOp?
  {
    hide At, OutcomeAt, After, TurnAction, Schedule, On;
    RunsOn(x.world, known, run, Schedule(x, |log|));
    ScheduleTurn(x, |log|, k);
  }

  /** A connection, once there, stays in the table. */
  lemma {:induction false} StaysKnown(world: World, known: map<string, seq<string>>, run: seq<Action>, i: nat, j: nat,
                                      c: nat)
    requires i <= j <= |run| && c in At(world, known, run, i).conns
    ensures c in At(world, known, run, j).conns
  {
    hide Step;
    if i < j {
      StaysKnown(world, known, run, i, j - 1, c);
      KeepsConns(world, At(world, known, run, j - 1), run[j - 1], c);
    }
  }

  lemma KeepsConns(world: World, st: State, a: Action, c: nat)
    requires c in st.conns
    ensures c in Step(world, st, a).0.conns
  {
    hide AuthPhase, ResponsePhase, LoopTurn;
  }

  lemma ActedNeedsConn(world: World, st: State, a: Action, c: nat)
    requires On(a, c) && !Step(world, st, a).1.NoOp?
    ensures c in st.conns
  {
    hide AuthPhase, ResponsePhase, LoopTurn;
  }

  /** Nothing happened on `c` before it connected. */
  lemma NotBefore(world: World, known: map<string, seq<string>>, run: seq<Action>, acts: seq<Action>, c: nat, i: nat)
    requires c !in At(world, known, run, |run|).conns
    requires i < |run + acts| && On((run + acts)[i], c) && !OutcomeAt(world, known, run + acts, i).NoOp?
    ensures |run| <= i
  {
    hide Step;
    var all := run + acts;
    ActedNeedsConn(world, At(world, known, all, i), all[i], c);
    if i < |run| {
      StaysKnown(world, known, all, i, |run|, c);
      AtPrefix(world, known, run, acts, |run|);
    }
  }

  lemma LoginStep(world: World, st: State, a: Action)
    requires Step(world, st, a).1.LoggedIn?
    ensures var (st', out) := Step(world, st, a);
            && a.OnResponse? && Carries(world, a.frame, TypeAuthResponse())
            && a.c in st'.conns && st'.conns[a.c].Authenticated? && st'.conns[a.c].peer == out.peer
  {
    hide Receive, Auth.Step, TypeAuth, TypeAuthResponse, Carries, Server.Dispatch;
    if a.OnResponse? && a.c in st.conns && st.conns[a.c].AwaitResponse? {
      ReceivedCarries(world, st.conns[a.c].w, a.frame);
    }
  }

  lemma ChallengeCall(world: World, st: State, a: Action)
    requires Step(world, st, a).1.Challenged?
    ensures a.OnAuth? && a.nonce.Some?
    ensures AuthCall(world, st, a) == [Auth.CreateChallenge(Step(world, st, a).1.service, a.nonce, a.now)]
  {
    hide Receive, TypeAuth, TypeAuthResponse, Server.Dispatch;
  }

  lemma ResponseCall(world: World, st: State, a: Action, op: Auth.Op)
    requires a.OnResponse? && op.VerifyResponse? && AuthCall(world, st, a) == [op]
    ensures ResponseIn(world, a.frame) == Some(op.response)
  {
    hide Open, Replay.CheckStep, TypeAuthResponse;
  }

  /** Where in the longer run the handshake of the call is. */
  lemma HandshakePlaces(x: Call, known: map<string, seq<string>>, run: seq<Action>, n: nat, i: nat)
    requires At(x.world, known, run, |run|) == x.st && x.c !in x.st.conns && n <= |x.ds|
    requires var all := run + Schedule(x, n);
             i < |all| && On(all[i], x.c) && !all[i].Connect? && !OutcomeAt(x.world, known, all, i).NoOp?
    ensures var all := run + Schedule(x, n);
            && (all[i].OnAuth? ==> n > 0 && i == |run| + Place(x.inp, 0))
            && (all[i].OnResponse? ==> n > 1 && i == |run| + Place(x.inp, 1))
  {
    hide At, OutcomeAt, Schedule;
    var acts := Schedule(x, n);
    NotBefore(x.world, known, run, acts, x.c, i);
    assert (run + acts)[i] == acts[i - |run|];
    var k := StepPlaces(x, n, i - |run|);
    ScheduleTurn(x, n, k);
  }

  /** A login on the second step: the first step was its challenge, and the service is configured. */
  lemma HandshakeBefore(x: Call, known: map<string, seq<string>>, run: seq<Action>, n: nat, peer: Auth.Peer)
    requires At(x.world, known, run, |run|) == x.st && x.c !in x.st.conns && 2 <= n <= |x.ds|
    requires var all, i := run + Schedule(x, n), |run| + Place(x.inp, 1);
             && i < |all| && On(all[i], x.c)
             && OutcomeAt(x.world, known, all, i).LoggedIn? && OutcomeAt(x.world, known, all, i).peer == peer
    ensures var all := run + Schedule(x, n);
            && ChallengedAt(x.world, known, all, |run| + Place(x.inp, 0), x.c, peer.serviceId)
            && LoggedInAt(x.world, known, all, |run| + Place(x.inp, 1), x.c, peer)
            && peer.serviceId in known && peer.capabilities == known[peer.serviceId]
  {
    hide Step, Carries, TypeAuth, TypeAuthResponse, Schedule, Place;
    var all, i := run + Schedule(x, n), |run| + Place(x.inp, 1);
    LoginStep(x.world, At(x.world, known, all, i), all[i]);
    var a, b := WasLoggedIn(x.world, known, all, i + 1, x.c);
    HandshakePlaces(x, known, run, n, a);
    HandshakePlaces(x, known, run, n, b);
  }

  lemma OthersCall(world: World, st: State, op: Auth.Op)
    ensures AuthCall(world, st, Elsewhere(op)) == [op]
  {
  }

  lemma {:induction false} CallsOfOthers(world: World, known: map<string, seq<string>>, run: seq<Action>, i: nat,
                                         ops: seq<Auth.Op>)
    requires i + |ops| <= |run| && forall m :: 0 <= m < |ops| ==> run[i + m] == Elsewhere(ops[m])
    ensures AuthCalls(world, known, run, i + |ops|) == AuthCalls(world, known, run, i) + ops
    decreases |ops|
  {
    hide At, AuthCall;
    if |ops| > 0 {
      var init, last := ops[..|ops| - 1], ops[|ops| - 1];
      CallsOfOthers(world, known, run, i, init);
      assert run[i + |init|] == Elsewhere(last);
      OthersCall(world, At(world, known, run, i + |init|), last);
      assert AuthCalls(world, known, run, i) + ops == AuthCalls(world, known, run, i) + init + [last];
    }
  }

  /** A challenge on `c`, then only the others, then a login on `c`: the response is to the service's last challenge. */
  lemma AnswersLastChallenge(world: World, known: map<string, seq<string>>, run: seq<Action>, i: nat, ops: seq<Auth.Op>,
                             c: nat, peer: Auth.Peer)
    requires ChallengedAt(world, known, run, i, c, peer.serviceId) && peer.serviceId in known
    requires i + 1 + |ops| < |run| && forall m :: 0 <= m < |ops| ==> run[i + 1 + m] == Elsewhere(ops[m])
    requires LoggedInAt(world, known, run, i + 1 + |ops|, c, peer)
    ensures AnswersLast(world, known, [Auth.CreateChallenge(peer.serviceId, run[i].nonce, run[i].now)] + ops,
                        peer.serviceId, ResponseIn(world, run[i + 1 + |ops|].frame))
  {
    hide Step, At, Carries, TypeAuth, TypeAuthResponse, ResponseIn, AuthCall;
    var s, j := peer.serviceId, i + 1 + |ops|;
    var own := Auth.CreateChallenge(s, run[i].nonce, run[i].now);
    var k, response := LoginAnswersLatest(world, known, run, j, c, peer);
    ResponseCall(world, At(world, known, run, j), run[j], Auth.VerifyResponse(s, response, run[j].token, run[j].now));
    ChallengeCall(world, At(world, known, run, i), run[i]);
    CallsOfOthers(world, known, run, i + 1, ops);
    var before, since := AuthCalls(world, known, run, i), [own] + ops;
    var all := AuthCalls(world, known, run, j);
    assert all == before + since;
    assert all[|before|] == own && Auth.Issues(known, own, s);
    LastIsSince(world, known, before, since, s, k, response);
  }

  lemma LastIsSince(world: World, known: map<string, seq<string>>, before: seq<Auth.Op>, since: seq<Auth.Op>, s: string,
                    k: nat, response: seq<byte>)
    requires var all := before + since;
             && k < |all| && Auth.Issues(known, all[k], s) && world.env.sign(all[k].nonce.value) == response
             && forall m :: k < m < |all| ==> !Auth.Issues(known, all[m], s) && !Auth.Attempts(all[m], s)
    requires |since| > 0 && Auth.Issues(known, since[0], s)
    ensures AnswersLast(world, known, since, s, Some(response))
  {
    hide Auth.Issues, Auth.Attempts;
    var all := before + since;
    assert all[|before|] == since[0];
    assert forall m :: 0 <= m < |since| ==> since[m] == all[|before| + m];
    assert since[k - |before|] == all[k];
  }

  lemma LoginAdmitted(x: Call, known: map<string, seq<string>>, run: seq<Action>, auth: Auth.State, log: seq<Outcome>)
    requires At(x.world, known, run, |run|) == x.st && x.c !in x.st.conns && Complete(x, auth, log)
    requires |log| >= 2 && log[1].LoggedIn?
    ensures Admitted(x, known, log)
  {
    hide At, OutcomeAt, Complete, Carries, TypeAuth, TypeAuthResponse, ResponseIn, Schedule, AnswersLast;
    LogIsTurn(x, known, run, auth, log, 0);
    var all, i := run + Schedule(x, |log|), |run| + Place(x.inp, 0);
    LogIsTurn(x, known, run, auth, log, 1);
    LogIsTurn(x, known, run, auth, log, |log| - 1);
    HandshakeBefore(x, known, run, |log|, log[1].peer);
    var ops := x.inp.others(1);
    assert |run| + Place(x.inp, 1) == i + 1 + |ops|;
    forall m | 0 <= m < |ops| ensures all[i + 1 + m] == Elsewhere(ops[m]) {
      ScheduleOthers(x, |log|, 1, m);
    }
    AnswersLastChallenge(x.world, known, all, i, ops, x.c, log[1].peer);
  }

  lemma DispatchAuthorised(x: Call, known: map<string, seq<string>>, run: seq<Action>, auth: Auth.State,
                           log: seq<Outcome>, k: nat)
    requires At(x.world, known, run, |run|) == x.st && x.c !in x.st.conns && Complete(x, auth, log)
    requires k < |log| && log[k].Dispatched?
    ensures InSession(x, known, log, k)
  {
    hide Step, At, Complete, Admitted, Carries, TypeAuth, TypeAuthResponse, Schedule, Place;
    LogIsTurn(x, known, run, auth, log, k);
    var all := run + Schedule(x, |log|);
    var a, b, peer := DispatchOnlyAuthorised(x.world, known, all, |run| + Place(x.inp, k));
    HandshakePlaces(x, known, run, |log|, b);
    LogIsTurn(x, known, run, auth, log, 1);
    LoginAdmitted(x, known, run, auth, log);
    AdmittedService(x, known, log);
  }

  lemma AdmittedService(x: Call, known: map<string, seq<string>>, log: seq<Outcome>)
    requires Admitted(x, known, log)
    ensures |log| >= 2 && log[0].Challenged? && log[1].LoggedIn? && log[1].peer.serviceId == log[0].service
    ensures log[0].service in known
  {
  }

  /** The safety theorems of the machine, said of what handleConnection did. */
  lemma LogAuthorised(x: Call, known: map<string, seq<string>>, run: seq<Action>, auth: Auth.State, log: seq<Outcome>)
    requires At(x.world, known, run, |run|) == x.st && x.c !in x.st.conns && Complete(x, auth, log)
    ensures Authorised(x, known, log)
  {
    hide At, Complete, Admitted, InSession, Accepts, Fails;
    if |log| >= 2 && log[1].LoggedIn? {
      LoginAdmitted(x, known, run, auth, log);
    }
    forall k | 0 <= k < |log| && log[k].Dispatched? ensures InSession(x, known, log, k) {
      DispatchAuthorised(x, known, run, auth, log, k);
    }
    forall j, k | 0 <= j < k < |log| && Accepts(log[j]).Some? && Accepts(log[k]).Some?
      ensures Accepts(log[j]) != Accepts(log[k])
    {
      LogNumbersDiffer(x, known, run, auth, log, j, k);
    }
    forall k | 0 <= k < |log| && Fails(log[k]) ensures k == |log| - 1 {
      FailureIsLast(x, known, run, auth, log, k);
    }
  }

  lemma LogNumbersDiffer(x: Call, known: map<string, seq<string>>, run: seq<Action>, auth: Auth.State,
                         log: seq<Outcome>, j: nat, k: nat)
    requires At(x.world, known, run, |run|) == x.st && Complete(x, auth, log)
    requires j < k < |log| && Accepts(log[j]).Some? && Accepts(log[k]).Some?
    ensures Accepts(log[j]) != Accepts(log[k])
  {
    hide At, OutcomeAt, Complete, Accepts, TurnAction, Schedule, On, Place;
    LogIsTurn(x, known, run, auth, log, j);
    LogIsTurn(x, known, run, auth, log, k);
    PlacesGrow(x.inp, j, k);
    NumbersDistinct(x.world, known, run + Schedule(x, |log|), |run| + Place(x.inp, j), |run| + Place(x.inp, k), x.c);
  }

  lemma FailureIsLast(x: Call, known: map<string, seq<string>>, run: seq<Action>, auth: Auth.State, log: seq<Outcome>,
                      k: nat)
    requires At(x.world, known, run, |run|) == x.st && Complete(x, auth, log)
    requires k < |log| && Fails(log[k])
    ensures k == |log| - 1
  {
    hide At, OutcomeAt, Complete, TurnAction, Schedule, On, Place;
    var last := |log| - 1;
    LogIsTurn(x, known, run, auth, log, k);
    LogIsTurn(x, known, run, auth, log, last);
    if k < last {
      PlacesGrow(x.inp, k, last);
      var all := run + Schedule(x, |log|);
      NothingAfterFailure(x.world, known, all, |run| + Place(x.inp, k), |run| + Place(x.inp, last), x.c);
    }
  }
}
