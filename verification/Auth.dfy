/**
 Challenge-response authentication and sessions (security/auth/identity.go).
 The clock, nonces, tokens and HMAC-SHA256 under the shared secret are inputs.
 */
module Auth {
  import opened Bytes

  type Time = int
  type Mac = seq<byte> -> seq<byte>

  const ONE_HOUR: int := 3600 * 1_000_000_000

  datatype Challenge = Challenge(serviceId: string, nonce: seq<byte>, createdAt: Time)

  datatype Peer = Peer(serviceId: string, capabilities: seq<string>, token: string, createdAt: Time, ttl: int)

  /** PeerIdentity.IsExpired at time `now`. */
  predicate IsExpired(p: Peer, now: Time) { p.ttl > 0 && now - p.createdAt > p.ttl }

  /** What a lifetime means: it never ends unless it is positive, and then it lasts from the login up to its end. */
  ghost predicate InTime(p: Peer, now: Time) { p.ttl <= 0 || now <= p.createdAt + p.ttl }

  datatype State = State(known: map<string, seq<string>>, sessions: map<string, Peer>,
                         pending: map<string, Challenge>, ttl: int)

  /** A call, with what the clock and the random source give it; None is a failing random source. */
  datatype Op =
    | CreateChallenge(service: string, nonce: Option<seq<byte>>, now: Time)
    | VerifyResponse(service: string, response: seq<byte>, newToken: Option<string>, now: Time)
    | ValidateSession(token: string, now: Time)
    | RevokeSession(token: string)
    | CleanupExpired(now: Time)
    | SetSessionTTL(ttl: int)

  datatype Outcome =
    | Challenged(c: Challenge) | Verified(peer: Peer) | Valid(peer: Peer) | Denied | Done | Removed(n: nat)

  function Initial(known: map<string, seq<string>>): State { State(known, map[], map[], ONE_HOUR) }

  function Unexpired(sessions: map<string, Peer>, now: Time): (kept: map<string, Peer>)
    ensures |kept| <= |sessions|
  {
    var kept := map t | t in sessions && !IsExpired(sessions[t], now) :: sessions[t];
    SubsetSize(kept.Keys, sessions.Keys);
    kept
  }

  function Step(mac: Mac, st: State, op: Op): (State, Outcome) {
    match op
    case CreateChallenge(s, nonce, now) =>
      if s !in st.known || nonce.None? then (st, Denied)
      else
        var c := Challenge(s, nonce.value, now);
        (st.(pending := st.pending[s := c]), Challenged(c))
    case VerifyResponse(s, response, newToken, now) =>
      if s !in st.pending then (st, Denied)
      else
        var st1 := st.(pending := st.pending - {s});
        if mac(st.pending[s].nonce) != response || newToken.None? then (st1, Denied)
        else
          var caps := if s in st.known then st.known[s] else [];
          var p := Peer(s, caps, newToken.value, now, st.ttl);
          (st1.(sessions := st.sessions[newToken.value := p]), Verified(p))
    case ValidateSession(token, now) =>
      if token !in st.sessions || IsExpired(st.sessions[token], now) then (st, Denied)
      else (st, Valid(st.sessions[token]))
    case RevokeSession(token) => (st.(sessions := st.sessions - {token}), Done)
    case CleanupExpired(now) =>
      var kept := Unexpired(st.sessions, now);
      (st.(sessions := kept), Removed(|st.sessions| - |kept|))
    case SetSessionTTL(ttl) => (st.(ttl := ttl), Done)
  }

  class Authenticator {
    const mac: Mac
    var knownServices: map<string, seq<string>>
    var activeSessions: map<string, Peer>
    var pendingChallenges: map<string, Challenge>
    var sessionTTL: int

    ghost function Value(): State
      reads this
    {
      State(knownServices, activeSessions, pendingChallenges, sessionTTL)
    }

    /** NewAuthenticator. */
    constructor (mac: Mac, known: map<string, seq<string>>)
      ensures this.mac == mac && Value() == Initial(known)
    {
      this.mac := mac;
      knownServices, activeSessions, pendingChallenges, sessionTTL := known, map[], map[], ONE_HOUR;
    }

    method SetTTL(ttl: int)
      modifies this
      ensures (Value(), Done) == Step(mac, old(Value()), SetSessionTTL(ttl))
    {
      sessionTTL := ttl;
    }

    method Create(service: string, nonce: Option<seq<byte>>, now: Time) returns (r: Outcome)
      modifies this
      ensures (Value(), r) == Step(mac, old(Value()), CreateChallenge(service, nonce, now))
    {
      if service !in knownServices {
        return Denied;
      }
      if nonce.None? {
        return Denied;
      }
      var challenge := Challenge(service, nonce.value, now);
      pendingChallenges := pendingChallenges[service := challenge];
      return Challenged(challenge);
    }

    method Verify(service: string, response: seq<byte>, token: Option<string>, now: Time) returns (r: Outcome)
      modifies this
      ensures (Value(), r) == Step(mac, old(Value()), VerifyResponse(service, response, token, now))
    {
      if service !in pendingChallenges {
        return Denied;
      }
      var challenge := pendingChallenges[service];
      pendingChallenges := pendingChallenges - {service};
      var expected := mac(challenge.nonce);
      if expected != response {
        return Denied;
      }
      var caps := if service in knownServices then knownServices[service] else [];
      if token.None? {
        return Denied;
      }
      var peer := Peer(service, caps, token.value, now, sessionTTL);
      activeSessions := activeSessions[token.value := peer];
      return Verified(peer);
    }

    method Validate(token: string, now: Time) returns (r: Outcome)
      ensures (Value(), r) == Step(mac, Value(), ValidateSession(token, now))
      ensures r.Valid? <==> token in activeSessions && InTime(activeSessions[token], now)
    {
      if token !in activeSessions {
        return Denied;
      }
      if IsExpired(activeSessions[token], now) {
        return Denied;
      }
      return Valid(activeSessions[token]);
    }

    method Revoke(token: string)
      modifies this
      ensures (Value(), Done) == Step(mac, old(Value()), RevokeSession(token))
    {
      activeSessions := activeSessions - {token};
    }

    /** CleanupExpired: visit every session, delete the expired ones, count them. */
    method Cleanup(now: Time) returns (removed: nat)
      modifies this
      ensures (Value(), Removed(removed)) == Step(mac, old(Value()), CleanupExpired(now))
      ensures forall t :: t in activeSessions <==> t in old(activeSessions) && InTime(old(activeSessions[t]), now)
    {
      ghost var before := activeSessions;
      removed := 0;
      var todo := activeSessions.Keys;
      while todo != {}
        invariant todo <= activeSessions.Keys
        invariant forall t :: t in activeSessions ==> t in before && activeSessions[t] == before[t]
        invariant forall t :: t in before && !IsExpired(before[t], now) ==> t in activeSessions
        invariant forall t :: t in activeSessions && t !in todo ==> !IsExpired(before[t], now)
        invariant removed + |activeSessions| == |before|
        invariant knownServices == old(knownServices) && pendingChallenges == old(pendingChallenges)
        invariant sessionTTL == old(sessionTTL)
        decreases todo
      {
        var token :| token in todo;
        todo := todo - {token};
        if IsExpired(activeSessions[token], now) {
          DeleteCounts(activeSessions, token);
          activeSessions := activeSessions - {token};
          removed := removed + 1;
        }
      }
      assert activeSessions == Unexpired(before, now);
    }

    /** Any one call. */
    method Apply(op: Op)
      modifies this
      ensures Value() == Step(mac, old(Value()), op).0
    {
      match op {
        case CreateChallenge(service, nonce, now) =>
          var created := Create(service, nonce, now);
        case VerifyResponse(service, response, newToken, now) =>
          var verified := Verify(service, response, newToken, now);
        case ValidateSession(token, now) =>
          var valid := Validate(token, now);
        case RevokeSession(token) =>
          Revoke(token);
        case CleanupExpired(now) =>
          var removed := Cleanup(now);
        case SetSessionTTL(ttl) =>
          SetTTL(ttl);
      }
    }

    /** Any calls, one after the other: what other goroutines do in the meantime. */
    method ApplyAll(ops: seq<Op>)
      modifies this
      ensures Value() == At(mac, old(Value()), ops, |ops|)
    {
      hide Step;
      var i := 0;
      while i < |ops|
        invariant 0 <= i <= |ops| && Value() == At(mac, old(Value()), ops, i)
      {
        Apply(ops[i]);
        i := i + 1;
      }
    }
  }

  lemma DeleteCounts(m: map<string, Peer>, k: string)
    requires k in m
    ensures |m - {k}| == |m| - 1
  {
    assert (m - {k}).Keys == m.Keys - {k};
  }

  // ----------------------------------------------------------------------- runs

  /** The state before call `i` of an interleaving `ops`. */
  function At(mac: Mac, st: State, ops: seq<Op>, i: nat): State
    requires i <= |ops|
  {
    if i == 0 then st else Step(mac, At(mac, st, ops, i - 1), ops[i - 1]).0
  }

  lemma {:induction false} AtPrefix(mac: Mac, st: State, a: seq<Op>, b: seq<Op>, i: nat)
    requires i <= |a|
    ensures At(mac, st, a + b, i) == At(mac, st, a, i)
  {
    hide Step;
    if i > 0 {
      AtPrefix(mac, st, a, b, i - 1);
    }
  }

  lemma {:induction false} AtConcat(mac: Mac, st: State, a: seq<Op>, b: seq<Op>)
    ensures At(mac, st, a + b, |a| + |b|) == At(mac, At(mac, st, a, |a|), b, |b|)
    decreases |b|
  {
    hide Step;
    if |b| == 0 {
      assert a + b == a;
    } else {
      var init := b[..|b| - 1];
      AtConcat(mac, st, a, init);
      assert b == init + [b[|b| - 1]] && a + b == (a + init) + [b[|b| - 1]];
      AtPrefix(mac, st, a + init, [b[|b| - 1]], |a| + |init|);
      AtPrefix(mac, At(mac, st, a, |a|), init, [b[|b| - 1]], |init|);
    }
  }

  function OutcomeAt(mac: Mac, st: State, ops: seq<Op>, i: nat): Outcome
    requires i < |ops|
  {
    Step(mac, At(mac, st, ops, i), ops[i]).1
  }

  /** Call `op` puts a challenge for `s` in place. */
  predicate Issues(known: map<string, seq<string>>, op: Op, s: string) {
    op.CreateChallenge? && op.service == s && s in known && op.nonce.Some?
  }

  predicate Attempts(op: Op, s: string) { op.VerifyResponse? && op.service == s }

  /** The challenge for `s` outstanding before call `i`: the last one, unless a response was tried since. */
  function Outstanding(known: map<string, seq<string>>, ops: seq<Op>, i: nat, s: string): (r: Option<nat>)
    requires i <= |ops|
  {
    if i == 0 then None
    else if Issues(known, ops[i - 1], s) then Some(i - 1)
    else if Attempts(ops[i - 1], s) then None
    else Outstanding(known, ops, i - 1, s)
  }

  lemma {:induction false} OutstandingIsLatest(known: map<string, seq<string>>, ops: seq<Op>, i: nat, s: string)
    requires i <= |ops| && Outstanding(known, ops, i, s).Some?
    ensures var k := Outstanding(known, ops, i, s).value;
            && k < i && Issues(known, ops[k], s)
            && forall m :: k < m < i ==> !Issues(known, ops[m], s) && !Attempts(ops[m], s)
  {
    if !Issues(known, ops[i - 1], s) {
      OutstandingIsLatest(known, ops, i - 1, s);
    }
  }

  /** A reachable state: services never change, and challenges and sessions belong to known services. */
  ghost predicate Inv(known: map<string, seq<string>>, st: State) {
    && st.known == known
    && (forall s :: s in st.pending ==> s in known)
    && forall t :: t in st.sessions ==>
         && st.sessions[t].token == t && st.sessions[t].serviceId in known
         && st.sessions[t].capabilities == known[st.sessions[t].serviceId]
  }

  lemma StepKeeps(mac: Mac, known: map<string, seq<string>>, st: State, op: Op)
    requires Inv(known, st)
    ensures Inv(known, Step(mac, st, op).0)
  {
  }

  /** In every reachable state, each session has exactly the capabilities configured for its service. */
  lemma {:induction false} ReachableInv(mac: Mac, known: map<string, seq<string>>, ops: seq<Op>, i: nat)
    requires i <= |ops|
    ensures Inv(known, At(mac, Initial(known), ops, i))
  {
    hide Step, Inv;
    if i == 0 {
      InitialInv(known);
    } else {
      ReachableInv(mac, known, ops, i - 1);
      StepKeeps(mac, known, At(mac, Initial(known), ops, i - 1), ops[i - 1]);
    }
  }

  lemma InitialInv(known: map<string, seq<string>>)
    ensures Inv(known, Initial(known))
  {
  }

  /** One call changes the pending challenge of `s` only by issuing one or trying a response. */
  lemma PendingStep(mac: Mac, known: map<string, seq<string>>, st: State, op: Op, s: string)
    requires st.known == known
    ensures var p := Step(mac, st, op).0.pending;
            && (Issues(known, op, s) ==> s in p && p[s].nonce == op.nonce.value)
            && (Attempts(op, s) ==> s !in p)
            && (!Issues(known, op, s) && !Attempts(op, s) ==>
                  (s in p <==> s in st.pending) && (s in p ==> p[s] == st.pending[s]))
  {
  }

  /** The pending table is the outstanding challenges of the history. */
  lemma {:induction false} PendingIsOutstanding(mac: Mac, known: map<string, seq<string>>, ops: seq<Op>, i: nat,
                                                s: string)
    requires i <= |ops|
    ensures var p, k := At(mac, Initial(known), ops, i).pending, Outstanding(known, ops, i, s);
            && (s in p <==> k.Some?)
            && (k.Some? ==> k.value < i && Issues(known, ops[k.value], s) && p[s].nonce == ops[k.value].nonce.value)
  {
    hide Step;
    if i > 0 {
      PendingIsOutstanding(mac, known, ops, i - 1, s);
      ReachableInv(mac, known, ops, i - 1);
      PendingStep(mac, known, At(mac, Initial(known), ops, i - 1), ops[i - 1], s);
    }
  }

  /**
   Exactly when a response is accepted, whatever other connections do: it
   answers the outstanding challenge of its service, which is the latest one
   issued and has not been answered, rightly or wrongly, since.
   */
  lemma VerifiedIff(mac: Mac, known: map<string, seq<string>>, ops: seq<Op>, j: nat)
    requires j < |ops| && ops[j].VerifyResponse?
    ensures var s, k := ops[j].service, Outstanding(known, ops, j, ops[j].service);
            var out := OutcomeAt(mac, Initial(known), ops, j);
            && (out.Verified? <==>
                  && k.Some? && k.value < j && Issues(known, ops[k.value], s)
                  && mac(ops[k.value].nonce.value) == ops[j].response && ops[j].newToken.Some?)
            && (out.Verified? ==>
                  s in known && out.peer == Peer(s, known[s], ops[j].newToken.value, ops[j].now, TtlAt(ops, j)))
            && (!out.Verified? ==> out == Denied)
  {
    PendingIsOutstanding(mac, known, ops, j, ops[j].service);
    ReachableInv(mac, known, ops, j);
    TtlTracked(mac, known, ops, j);
  }

  /** The lifetime new sessions get: the last one set, one hour at first. */
  function TtlAt(ops: seq<Op>, i: nat): int
    requires i <= |ops|
  {
    if i == 0 then 3_600_000_000_000 else if ops[i - 1].SetSessionTTL? then ops[i - 1].ttl else TtlAt(ops, i - 1)
  }

  lemma {:induction false} TtlPrefix(a: seq<Op>, b: seq<Op>, i: nat)
    requires i <= |a|
    ensures TtlAt(a + b, i) == TtlAt(a, i)
  {
    if i > 0 {
      TtlPrefix(a, b, i - 1);
    }
  }

  lemma {:induction false} TtlTracked(mac: Mac, known: map<string, seq<string>>, ops: seq<Op>, i: nat)
    requires i <= |ops|
    ensures At(mac, Initial(known), ops, i).ttl == TtlAt(ops, i)
  {
    if i > 0 {
      TtlTracked(mac, known, ops, i - 1);
    }
  }

  /** The challenge a successful response answered. */
  function Answered(known: map<string, seq<string>>, ops: seq<Op>, j: nat): Option<nat>
    requires j < |ops|
  {
    if ops[j].VerifyResponse? then Outstanding(known, ops, j, ops[j].service) else None
  }

  /** Successful responses inject into earlier challenges: for one service they even alternate with them. */
  lemma AnswersInject(mac: Mac, known: map<string, seq<string>>, ops: seq<Op>, i: nat, j: nat)
    requires i < j < |ops|
    requires OutcomeAt(mac, Initial(known), ops, i).Verified? && OutcomeAt(mac, Initial(known), ops, j).Verified?
    ensures Answered(known, ops, i).Some? && Answered(known, ops, j).Some?
    ensures Answered(known, ops, i).value < i && Answered(known, ops, j).value < j
    ensures Answered(known, ops, i) != Answered(known, ops, j)
    ensures ops[i].service == ops[j].service ==> i < Answered(known, ops, j).value
  {
    hide At, Outstanding, Step;
    OnlyVerifyVerifies(mac, At(mac, Initial(known), ops, i), ops[i]);
    OnlyVerifyVerifies(mac, At(mac, Initial(known), ops, j), ops[j]);
    VerifiedIff(mac, known, ops, i);
    VerifiedIff(mac, known, ops, j);
    OutstandingIsLatest(known, ops, i, ops[i].service);
    OutstandingIsLatest(known, ops, j, ops[j].service);
    assert Attempts(ops[i], ops[i].service);
  }

  lemma OnlyVerifyVerifies(mac: Mac, st: State, op: Op)
    ensures Step(mac, st, op).1.Verified? ==> op.VerifyResponse?
  {
  }

  /** A challenge that was answered or overwritten is never answered again. */
  lemma SpentNeverAnswers(known: map<string, seq<string>>, ops: seq<Op>, i: nat, k: nat, j: nat, s: string)
    requires i < k < j < |ops| && Issues(known, ops[i], s)
    requires Issues(known, ops[k], s) || Attempts(ops[k], s)
    ensures Answered(known, ops, j) != Some(i)
  {
    if Answered(known, ops, j) == Some(i) {
      OutstandingIsLatest(known, ops, j, ops[j].service);
    }
  }

  // -------------------------------------------------------------- session history

  predicate Timed(op: Op) { op.CreateChallenge? || op.VerifyResponse? || op.ValidateSession? || op.CleanupExpired? }

  /** The clock does not go back over a run. */
  predicate ClockForward(ops: seq<Op>) {
    forall m, n :: 0 <= m < n < |ops| && Timed(ops[m]) && Timed(ops[n]) ==> ops[m].now <= ops[n].now
  }

  predicate LogsIn(mac: Mac, known: map<string, seq<string>>, ops: seq<Op>, i: nat, token: string)
    requires i < |ops|
  {
    var out := OutcomeAt(mac, Initial(known), ops, i);
    out.Verified? && out.peer.token == token
  }

  /** The login that last gave out `token`, unless it was revoked since. */
  function LastLogin(mac: Mac, known: map<string, seq<string>>, ops: seq<Op>, i: nat, token: string): Option<nat>
    requires i <= |ops|
  {
    if i == 0 then None
    else if LogsIn(mac, known, ops, i - 1, token) then Some(i - 1)
    else if ops[i - 1] == RevokeSession(token) then None
    else LastLogin(mac, known, ops, i - 1, token)
  }

  lemma SessionStep(mac: Mac, st: State, op: Op, token: string)
    ensures var (st', out) := Step(mac, st, op);
            var ss := st'.sessions;
            && (out.Verified? && out.peer.token == token ==> token in ss && ss[token] == out.peer)
            && (op == RevokeSession(token) ==> token !in ss)
            && (!(out.Verified? && out.peer.token == token) && op != RevokeSession(token) ==>
                  && (token in ss ==> token in st.sessions && ss[token] == st.sessions[token])
                  && (token in st.sessions && token !in ss ==>
                      op.CleanupExpired? && IsExpired(st.sessions[token], op.now)))
  {
  }

  /** The session table is the logins of the history, less those a cleanup found expired. */
  lemma {:induction false} SessionsAreLogins(mac: Mac, known: map<string, seq<string>>, ops: seq<Op>, i: nat,
                                             token: string)
    requires i <= |ops|
    ensures var ss, k := At(mac, Initial(known), ops, i).sessions, LastLogin(mac, known, ops, i, token);
            && (k.Some? ==> k.value < i && LogsIn(mac, known, ops, k.value, token))
            && (token in ss ==> k.Some? && ss[token] == OutcomeAt(mac, Initial(known), ops, k.value).peer)
            && (token !in ss && k.Some? ==>
                  exists m :: 0 <= m < i && ops[m].CleanupExpired?
                              && IsExpired(OutcomeAt(mac, Initial(known), ops, k.value).peer, ops[m].now))
  {
    hide Step;
    if i > 0 {
      SessionsAreLogins(mac, known, ops, i - 1, token);
      SessionStep(mac, At(mac, Initial(known), ops, i - 1), ops[i - 1], token);
    }
  }

  /**
   Exactly when a token is good, with a clock that does not go back: it was given
   out by a login, not given out again or revoked since, and no more time has
   passed since that login than the lifetime in force then, if that was positive;
   whether or not cleanups ran in between.
   */
  lemma ValidIff(mac: Mac, known: map<string, seq<string>>, ops: seq<Op>, j: nat)
    requires j < |ops| && ops[j].ValidateSession? && ClockForward(ops)
    ensures var k := LastLogin(mac, known, ops, j, ops[j].token);
            var out := OutcomeAt(mac, Initial(known), ops, j);
            && (k.Some? ==>
                  && k.value < j && LogsIn(mac, known, ops, k.value, ops[j].token) && ops[k.value].VerifyResponse?
                  && ops[k.value].service in known)
            && (out.Valid? <==>
                  && k.Some?
                  && (TtlAt(ops, k.value) <= 0 || ops[j].now <= ops[k.value].now + TtlAt(ops, k.value)))
            && (out.Valid? ==>
                  var s := ops[k.value].service;
                  out.peer == Peer(s, known[s], ops[j].token, ops[k.value].now, TtlAt(ops, k.value)))
            && (!out.Valid? ==> out == Denied)
  {
    hide At, Outstanding, Issues, TtlAt;
    SessionsAreLogins(mac, known, ops, j, ops[j].token);
    var k := LastLogin(mac, known, ops, j, ops[j].token);
    if k.Some? {
      OnlyVerifyVerifies(mac, At(mac, Initial(known), ops, k.value), ops[k.value]);
      VerifiedIff(mac, known, ops, k.value);
    }
  }

  // ------------------------------------------------------------- cleaning is invisible

  /** No call of `ops` is before `now`. */
  predicate NotBefore(ops: seq<Op>, now: Time) { forall m :: 0 <= m < |ops| && Timed(ops[m]) ==> now <= ops[m].now }

  lemma ClockTail(ops: seq<Op>, now: Time)
    requires |ops| > 0 && ClockForward(ops) && NotBefore(ops, now)
    ensures ClockForward(ops[1..]) && NotBefore(ops[1..], if Timed(ops[0]) then ops[0].now else now)
  {
    assert forall m :: 0 <= m < |ops| - 1 ==> ops[1..][m] == ops[m + 1];
  }

  /** A time before every call. */
  lemma {:induction false} ClockStart(ops: seq<Op>) returns (now: Time)
    ensures NotBefore(ops, now)
  {
    if |ops| == 0 {
      now := 0;
    } else {
      var rest := ClockStart(ops[1..]);
      now := if Timed(ops[0]) && ops[0].now < rest then ops[0].now else rest;
      assert forall m :: 1 <= m < |ops| ==> ops[m] == ops[1..][m - 1];
    }
  }

  function WithoutCleanup(ops: seq<Op>): seq<Op> {
    if |ops| == 0 then []
    else (if ops[0].CleanupExpired? then [] else [ops[0]]) + WithoutCleanup(ops[1..])
  }

  /** The outcomes of all calls but the cleanups. */
  function Visible(mac: Mac, st: State, ops: seq<Op>): seq<Outcome>
    decreases |ops|
  {
    if |ops| == 0 then []
    else
      var (st', out) := Step(mac, st, ops[0]);
      (if ops[0].CleanupExpired? then [] else [out]) + Visible(mac, st', ops[1..])
  }

  /** `a` is `b` with some sessions gone that have expired by `now`. */
  ghost predicate Cleaned(a: State, b: State, now: Time) {
    && a.known == b.known && a.pending == b.pending && a.ttl == b.ttl
    && (forall t :: t in a.sessions ==> t in b.sessions && a.sessions[t] == b.sessions[t])
    && forall t :: t in b.sessions && t !in a.sessions ==> IsExpired(b.sessions[t], now)
  }

  lemma StepSame(mac: Mac, a: State, b: State, now: Time, op: Op)
    requires Cleaned(a, b, now) && (Timed(op) ==> now <= op.now) && !op.CleanupExpired?
    ensures Cleaned(Step(mac, a, op).0, Step(mac, b, op).0, if Timed(op) then op.now else now)
    ensures Step(mac, a, op).1 == Step(mac, b, op).1
  {
    var later := if Timed(op) then op.now else now;
    assert Cleaned(a, b, later);
    match op
    case CreateChallenge(s, nonce, now) =>
    case VerifyResponse(s, response, newToken, now) =>
      if Step(mac, a, op).1.Verified? {
        var p := Step(mac, a, op).1.peer;
        SessionAdded(a, b, later, newToken.value, p);
      }
    case ValidateSession(token, now) =>
    case RevokeSession(token) =>
    case SetSessionTTL(ttl) =>
  }

  lemma SessionAdded(a: State, b: State, now: Time, token: string, p: Peer)
    requires Cleaned(a, b, now)
    ensures Cleaned(a.(sessions := a.sessions[token := p]), b.(sessions := b.sessions[token := p]), now)
  {
  }

  lemma CleanupSame(mac: Mac, a: State, b: State, now: Time, op: Op)
    requires Cleaned(a, b, now) && op.CleanupExpired? && now <= op.now
    ensures Cleaned(Step(mac, a, op).0, b, op.now)
  {
  }

  lemma {:induction false} VisibleSame(mac: Mac, a: State, b: State, now: Time, ops: seq<Op>)
    requires Cleaned(a, b, now) && ClockForward(ops) && NotBefore(ops, now)
    ensures Visible(mac, a, ops) == Visible(mac, b, WithoutCleanup(ops))
    decreases |ops|
  {
    hide Step, Cleaned, ClockForward;
    if |ops| > 0 {
      var op := ops[0];
      ClockTail(ops, now);
      var a' := Step(mac, a, op).0;
      if op.CleanupExpired? {
        CleanupSame(mac, a, b, now, op);
        VisibleSame(mac, a', b, op.now, ops[1..]);
        assert [] + WithoutCleanup(ops[1..]) == WithoutCleanup(ops[1..]);
      } else {
        StepSame(mac, a, b, now, op);
        VisibleSame(mac, a', Step(mac, b, op).0, if Timed(op) then op.now else now, ops[1..]);
        var rest := WithoutCleanup(ops[1..]);
        assert WithoutCleanup(ops) == [op] + rest && ([op] + rest)[1..] == rest;
      }
    }
  }

  /** How many calls of `ops` before call `i` are no cleanups: where call `i` goes without them. */
  function Kept(ops: seq<Op>, i: nat): (n: nat)
    requires i <= |ops|
    ensures n <= i
  {
    if i == 0 then 0 else Kept(ops, i - 1) + if ops[i - 1].CleanupExpired? then 0 else 1
  }

  lemma {:induction false} KeptTail(ops: seq<Op>, i: nat)
    requires 0 < i <= |ops|
    ensures Kept(ops, i) == Kept(ops[1..], i - 1) + if ops[0].CleanupExpired? then 0 else 1
  {
    if i > 1 {
      KeptTail(ops, i - 1);
    }
  }

  lemma {:induction false} AtTail(mac: Mac, st: State, ops: seq<Op>, i: nat)
    requires 0 < i <= |ops|
    ensures At(mac, st, ops, i) == At(mac, Step(mac, st, ops[0]).0, ops[1..], i - 1)
  {
    hide Step;
    if i > 1 {
      AtTail(mac, st, ops, i - 1);
    }
  }

  /** The visible outcomes are those of the calls that are no cleanups, each in its place. */
  lemma {:induction false} VisibleAt(mac: Mac, st: State, ops: seq<Op>, i: nat)
    requires i < |ops| && !ops[i].CleanupExpired?
    ensures Kept(ops, i) < |WithoutCleanup(ops)| == |Visible(mac, st, ops)|
    ensures WithoutCleanup(ops)[Kept(ops, i)] == ops[i]
    ensures Visible(mac, st, ops)[Kept(ops, i)] == OutcomeAt(mac, st, ops, i)
    decreases |ops|
  {
    hide Step, At;
    VisibleLength(mac, st, ops);
    if i > 0 {
      VisibleAt(mac, Step(mac, st, ops[0]).0, ops[1..], i - 1);
      KeptTail(ops, i);
      AtTail(mac, st, ops, i);
    } else {
      assert At(mac, st, ops, 0) == st by { AtStart(mac, st, ops); }
    }
  }

  lemma AtStart(mac: Mac, st: State, ops: seq<Op>)
    ensures At(mac, st, ops, 0) == st
  {
  }

  lemma {:induction false} VisibleLength(mac: Mac, st: State, ops: seq<Op>)
    ensures |Visible(mac, st, ops)| == |WithoutCleanup(ops)|
    decreases |ops|
  {
    hide Step;
    if |ops| > 0 {
      VisibleLength(mac, Step(mac, st, ops[0]).0, ops[1..]);
    }
  }

  lemma {:induction false} CleanupsGone(ops: seq<Op>, k: nat)
    requires k < |WithoutCleanup(ops)|
    ensures !WithoutCleanup(ops)[k].CleanupExpired?
  {
    if !ops[0].CleanupExpired? && k > 0 {
      CleanupsGone(ops[1..], k - 1);
    } else if ops[0].CleanupExpired? {
      CleanupsGone(ops[1..], k);
    }
  }

  lemma {:induction false} KeepsAll(ops: seq<Op>, k: nat)
    requires k <= |ops| && forall j :: 0 <= j < |ops| ==> !ops[j].CleanupExpired?
    ensures Kept(ops, k) == k
  {
    if k > 0 {
      KeepsAll(ops, k - 1);
    }
  }

  /**
   With a clock that does not go back, no caller can tell whether CleanupExpired
   ever ran: with the cleanups taken out of a run, every other call is made with
   the same outcome.
   */
  lemma CleanupInvisible(mac: Mac, st: State, ops: seq<Op>, i: nat)
    requires ClockForward(ops) && i < |ops| && !ops[i].CleanupExpired?
    ensures var rest, k := WithoutCleanup(ops), Kept(ops, i);
            k < |rest| && rest[k] == ops[i] && OutcomeAt(mac, st, rest, k) == OutcomeAt(mac, st, ops, i)
  {
    hide Step, At, Visible, Kept, ClockForward, OutcomeAt;
    var now := ClockStart(ops);
    VisibleSame(mac, st, st, now, ops);
    VisibleAt(mac, st, ops, i);
    var rest, k := WithoutCleanup(ops), Kept(ops, i);
    forall j | 0 <= j < |rest| ensures !rest[j].CleanupExpired? { CleanupsGone(ops, j); }
    KeepsAll(rest, k);
    VisibleAt(mac, st, rest, k);
  }
}
