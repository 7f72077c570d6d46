/**
 The broker (services/broker/broker.go): subscriptions, routes, and delivery in
 the stable priority order of the route list.
 */
module Broker {
  import opened Bytes
  import opened MessageTypes
  import opened Endpoint

  /** An endpoint is named by a number; None is a nil endpoint. */
  datatype Subscriber = Subscriber(serviceId: string, capabilities: seq<string>, endpoint: Option<nat>, priority: byte)

  datatype RouteResult = RouteResult(serviceId: string, err: Option<string>)

  /** One call of Send on a subscriber's endpoint, and what it returned. */
  datatype Delivery = Delivery(to: Subscriber, msg: Message, err: Option<string>)

  /** How the endpoints answer a Send: any function of everything sent before. */
  type Answers = (seq<Delivery>, Subscriber, Message) -> Option<string>

  /** The endpoints the subscribers hold.  Every Send goes on record. */
  class Endpoints {
    const answers: Answers
    var log: seq<Delivery>

    constructor (answers: Answers)
      ensures this.answers == answers && log == []
    {
      this.answers, log := answers, [];
    }

    method Send(to: Subscriber, msg: Message) returns (err: Option<string>)
      modifies this
      ensures err == answers(old(log), to, msg)
      ensures log == old(log) + [Delivery(to, msg, err)]
    {
      err := answers(log, to, msg);
      log := log + [Delivery(to, msg, err)];
    }
  }

  datatype State = State(subs: map<string, Subscriber>, routes: map<MessageType, seq<string>>)

  function Targets(st: State, typ: MessageType): seq<string> { if typ in st.routes then st.routes[typ] else [] }

  /** Subscribe accepts a subscriber with a name and an endpoint. */
  predicate Subscribable(sub: Option<Subscriber>) { sub.Some? && sub.value.serviceId != "" && sub.value.endpoint.Some? }

  function SubscribeStep(st: State, sub: Option<Subscriber>): State {
    if Subscribable(sub) then st.(subs := st.subs[sub.value.serviceId := sub.value]) else st
  }

  function UnsubscribeStep(st: State, id: string): State { st.(subs := st.subs - {id}) }

  /** The targets not yet listed, appended in order. */
  function AddAll(list: seq<string>, targets: seq<string>): seq<string>
    decreases |targets|
  {
    if |targets| == 0 then list
    else AddAll(if targets[0] in list then list else list + [targets[0]], targets[1..])
  }

  function AddRouteStep(st: State, typ: MessageType, targets: seq<string>): State {
    st.(routes := st.routes[typ := AddAll(Targets(st, typ), targets)])
  }

  /** The list without its first `x`. */
  function Without(list: seq<string>, x: string): seq<string> {
    if |list| == 0 then [] else if list[0] == x then list[1..] else [list[0]] + Without(list[1..], x)
  }

  function RemoveRouteStep(st: State, typ: MessageType, target: string): State {
    if target in Targets(st, typ) then st.(routes := st.routes[typ := Without(Targets(st, typ), target)]) else st
  }

  /** The subscribers Route collects, in route order. */
  function Select(subs: map<string, Subscriber>, targets: seq<string>): seq<Subscriber> {
    if |targets| == 0 then []
    else (if targets[0] in subs then [subs[targets[0]]] else []) + Select(subs, targets[1..])
  }

  /** The calls a loop of Sends makes, in order. */
  function SendEach(answers: Answers, log: seq<Delivery>, subs: seq<Subscriber>, msg: Message): (r: seq<Delivery>)
    ensures |r| == |subs|
    decreases |subs|
  {
    if |subs| == 0 then []
    else
      var d := Delivery(subs[0], msg, answers(log, subs[0], msg));
      [d] + SendEach(answers, log + [d], subs[1..], msg)
  }

  function Results(ds: seq<Delivery>): seq<RouteResult> {
    seq(|ds|, i requires 0 <= i < |ds| => RouteResult(ds[i].to.serviceId, ds[i].err))
  }

  // -------------------------------------------------------------- stable sorting

  ghost predicate Sorted(s: seq<Subscriber>) {
    forall i, j :: 0 <= i < j < |s| ==> s[i].priority <= s[j].priority
  }

  /** The subscribers of one priority, in order. */
  ghost function Lane(s: seq<Subscriber>, p: byte): seq<Subscriber> {
    if |s| == 0 then [] else (if s[0].priority == p then [s[0]] else []) + Lane(s[1..], p)
  }

  ghost predicate SameLanes(a: seq<Subscriber>, b: seq<Subscriber>) { forall p: byte :: Lane(a, p) == Lane(b, p) }

  /** `b` is the stable sort of `a` by priority. */
  ghost predicate StableSort(a: seq<Subscriber>, b: seq<Subscriber>) { Sorted(b) && SameLanes(a, b) }

  lemma LaneCons(s: seq<Subscriber>, p: byte)
    ensures |s| == 0 ==> Lane(s, p) == []
    ensures |s| > 0 ==> Lane(s, p) == (if s[0].priority == p then [s[0]] else []) + Lane(s[1..], p)
  {
  }

  lemma {:induction false} LaneConcat(a: seq<Subscriber>, b: seq<Subscriber>, p: byte)
    ensures Lane(a + b, p) == Lane(a, p) + Lane(b, p)
  {
    hide Lane;
    LaneCons(a, p);
    if |a| == 0 {
      assert a + b == b;
    } else {
      var h := if a[0].priority == p then [a[0]] else [];
      var x, y := Lane(a[1..], p), Lane(b, p);
      LaneConcat(a[1..], b, p);
      LaneCons(a + b, p);
      assert (a + b)[1..] == a[1..] + b && (a + b)[0] == a[0];
      assert h + (x + y) == (h + x) + y;
    }
  }

  function SwapAt(s: seq<Subscriber>, j: nat): (r: seq<Subscriber>)
    requires 0 < j < |s|
    ensures |r| == |s|
  {
    s[j := s[j - 1]][j - 1 := s[j]]
  }

  /** Exchanging neighbours of different priority changes no lane. */
  lemma SwapKeepsLanes(s: seq<Subscriber>, j: nat)
    requires 0 < j < |s| && s[j].priority != s[j - 1].priority
    ensures SameLanes(s, SwapAt(s, j))
  {
    var a, x, y, b := s[..j - 1], s[j - 1], s[j], s[j + 1..];
    forall p: byte ensures Lane(s, p) == Lane(SwapAt(s, j), p) {
      assert s == a + ([x, y] + b) && SwapAt(s, j) == a + ([y, x] + b);
      LaneConcat(a, [x, y] + b, p);
      LaneConcat(a, [y, x] + b, p);
      LaneConcat([x, y], b, p);
      LaneConcat([y, x], b, p);
      PairLane(x, y, p);
    }
  }

  lemma PairLane(x: Subscriber, y: Subscriber, p: byte)
    requires x.priority != y.priority
    ensures Lane([x, y], p) == Lane([y, x], p)
  {
    assert [x, y][1..] == [y] && [y, x][1..] == [x] && [x][1..] == [] && [y][1..] == [];
    assert Lane([x], p) == (if x.priority == p then [x] else []) + Lane([], p);
    assert Lane([y], p) == (if y.priority == p then [y] else []) + Lane([], p);
  }

  /** All but the element at `j` are in order up to `i`. */
  ghost predicate SortedBut(s: seq<Subscriber>, i: nat, j: nat)
    requires i < |s|
  {
    forall k, l :: 0 <= k < l <= i && l != j ==> s[k].priority <= s[l].priority
  }

  lemma SwapSorts(s: seq<Subscriber>, i: nat, j: nat)
    requires 0 < j <= i < |s| && SortedBut(s, i, j) && s[j].priority < s[j - 1].priority
    ensures SortedBut(SwapAt(s, j), i, j - 1)
  {
  }

  /** sortByPriority, in place. */
  method SortByPriority(subs: array<Subscriber>)
    modifies subs
    ensures StableSort(old(subs[..]), subs[..])
  {
    hide SameLanes, SortedBut, SwapAt;
    LanesReflexive(subs[..]);
    var i := 1;
    FirstSorted(subs[..]);
    while i < subs.Length
      invariant 1 <= i
      invariant i <= subs.Length ==> SortedUpTo(subs[..], i)
      invariant subs.Length == 0 ==> i == 1
      invariant i > subs.Length ==> subs.Length <= 1
      invariant SameLanes(old(subs[..]), subs[..])
    {
      var j := i;
      StartInsert(subs[..], i);
      while j > 0 && subs[j].priority < subs[j - 1].priority
        invariant 0 <= j <= i && SortedBut(subs[..], i, j)
        invariant SameLanes(old(subs[..]), subs[..])
      {
        ghost var s := subs[..];
        SwapSorts(s, i, j);
        SwapKeepsLanes(s, j);
        subs[j], subs[j - 1] := subs[j - 1], subs[j];
        assert subs[..] == SwapAt(s, j) by { SwapAtIs(s, j); }
        LanesTransitive(old(subs[..]), s, subs[..]);
        j := j - 1;
      }
      EndInsert(subs[..], i, j);
      i := i + 1;
    }
    FinishSorted(subs[..], i);
  }

  lemma SwapAtIs(s: seq<Subscriber>, j: nat)
    requires 0 < j < |s|
    ensures SwapAt(s, j) == s[j := s[j - 1]][j - 1 := s[j]]
  {
  }

  ghost predicate SortedUpTo(s: seq<Subscriber>, n: nat)
    requires n <= |s|
  {
    forall i, j :: 0 <= i < j < n ==> s[i].priority <= s[j].priority
  }

  lemma FirstSorted(s: seq<Subscriber>)
    ensures |s| >= 1 ==> SortedUpTo(s, 1)
  {
  }

  lemma StartInsert(s: seq<Subscriber>, i: nat)
    requires i < |s| && SortedUpTo(s, i)
    ensures SortedBut(s, i, i)
  {
  }

  lemma EndInsert(s: seq<Subscriber>, i: nat, j: nat)
    requires j <= i < |s| && SortedBut(s, i, j)
    requires j > 0 ==> s[j - 1].priority <= s[j].priority
    ensures SortedUpTo(s, i + 1)
  {
    forall k, l | 0 <= k < l < i + 1 ensures s[k].priority <= s[l].priority {
      if l == j && k < j - 1 {
        assert s[k].priority <= s[j - 1].priority;
      }
    }
  }

  lemma FinishSorted(s: seq<Subscriber>, i: nat)
    requires i >= |s| && (i <= |s| ==> SortedUpTo(s, i)) && (i > |s| ==> |s| <= 1)
    ensures Sorted(s)
  {
  }

  lemma LanesReflexive(s: seq<Subscriber>)
    ensures SameLanes(s, s)
  {
  }

  lemma LanesTransitive(a: seq<Subscriber>, b: seq<Subscriber>, c: seq<Subscriber>)
    requires SameLanes(a, b) && SameLanes(b, c)
    ensures SameLanes(a, c)
  {
    forall p: byte ensures Lane(a, p) == Lane(c, p) {
      assert Lane(a, p) == Lane(b, p);
    }
  }

  /** A stable sort is unique: order and contents of the deliveries are fully determined. */
  lemma {:induction false} StableSortUnique(a: seq<Subscriber>, b: seq<Subscriber>)
    requires Sorted(a) && Sorted(b) && SameLanes(a, b)
    ensures a == b
    decreases |a|
  {
    hide SameLanes;
    if |a| > 0 && |b| > 0 {
      HeadsAgree(a, b);
      TailLanes(a, b);
      StableSortUnique(a[1..], b[1..]);
    } else if |a| > 0 {
      EmptyLanes(a, b);
    } else if |b| > 0 {
      EmptyLanes(b, a);
    }
  }

  lemma EmptyLanes(a: seq<Subscriber>, b: seq<Subscriber>)
    requires |a| > 0 && (SameLanes(a, b) || SameLanes(b, a))
    ensures |b| > 0
  {
    assert Lane(a, a[0].priority) == Lane(b, a[0].priority);
  }

  lemma {:induction false} LaneElement(s: seq<Subscriber>, p: byte)
    requires |Lane(s, p)| > 0
    ensures exists k :: 0 <= k < |s| && s[k].priority == p
  {
    if s[0].priority == p {
      assert s[0].priority == p;
    } else {
      LaneElement(s[1..], p);
      var k :| 0 <= k < |s[1..]| && s[1..][k].priority == p;
      assert s[k + 1].priority == p;
    }
  }

  lemma HeadsAgree(a: seq<Subscriber>, b: seq<Subscriber>)
    requires |a| > 0 && |b| > 0 && Sorted(a) && Sorted(b) && SameLanes(a, b)
    ensures a[0] == b[0]
  {
    var p, q := a[0].priority, b[0].priority;
    assert Lane(a, p) == Lane(b, p) && Lane(a, q) == Lane(b, q);
    LaneElement(b, p);
    LaneElement(a, q);
    assert p == q;
    assert Lane(a, p)[0] == a[0] && Lane(b, p)[0] == b[0];
  }

  lemma TailLanes(a: seq<Subscriber>, b: seq<Subscriber>)
    requires |a| > 0 && |b| > 0 && a[0] == b[0] && SameLanes(a, b)
    ensures SameLanes(a[1..], b[1..])
  {
    forall p: byte ensures Lane(a[1..], p) == Lane(b[1..], p) {
      assert Lane(a, p) == Lane(b, p);
      var h := if a[0].priority == p then [a[0]] else [];
      assert Lane(a, p)[|h|..] == Lane(a[1..], p) && Lane(b, p)[|h|..] == Lane(b[1..], p);
    }
  }

  /** `x`, the earlier of equals, put in its place. */
  function Place(x: Subscriber, s: seq<Subscriber>): seq<Subscriber> {
    if |s| == 0 || x.priority <= s[0].priority then [x] + s else [s[0]] + Place(x, s[1..])
  }

  /** The order Route sends in. */
  function RouteOrder(subs: seq<Subscriber>): seq<Subscriber> {
    if |subs| == 0 then [] else Place(subs[0], RouteOrder(subs[1..]))
  }

  lemma {:induction false} PlaceSorted(x: Subscriber, s: seq<Subscriber>)
    requires Sorted(s)
    ensures Sorted(Place(x, s))
    ensures forall k :: 0 <= k < |Place(x, s)| ==> Place(x, s)[k] == x || Place(x, s)[k] in s
  {
    if |s| > 0 && x.priority > s[0].priority {
      PlaceSorted(x, s[1..]);
      var r := Place(x, s[1..]);
      forall k | 0 <= k < |r| ensures s[0].priority <= r[k].priority {
        if r[k] != x {
          var j :| 0 <= j < |s[1..]| && s[1..][j] == r[k];
          assert s[j + 1] == r[k];
        }
      }
    }
  }

  lemma {:induction false} PlaceLane(x: Subscriber, s: seq<Subscriber>, p: byte)
    ensures Lane(Place(x, s), p) == (if x.priority == p then [x] else []) + Lane(s, p)
  {
    hide Lane;
    if |s| == 0 || x.priority <= s[0].priority {
      LaneCons([x] + s, p);
      assert ([x] + s)[1..] == s;
    } else {
      var r := Place(x, s[1..]);
      PlaceLane(x, s[1..], p);
      LaneCons(s, p);
      LaneCons([s[0]] + r, p);
      assert ([s[0]] + r)[1..] == r;
    }
  }

  /** The specification's order is the stable sort, so whatever sorts stably gives it. */
  lemma {:induction false} RouteOrderStable(subs: seq<Subscriber>)
    ensures StableSort(subs, RouteOrder(subs))
  {
    hide Lane, Place, Sorted;
    if |subs| == 0 {
      EmptySorted();
    } else {
      var r := RouteOrder(subs[1..]);
      RouteOrderStable(subs[1..]);
      PlaceSorted(subs[0], r);
      forall p: byte ensures Lane(subs, p) == Lane(RouteOrder(subs), p) {
        PlaceLane(subs[0], r, p);
        LaneCons(subs, p);
        assert Lane(subs[1..], p) == Lane(r, p);
      }
    }
  }

  lemma EmptySorted()
    ensures Sorted([])
  {
  }

  lemma OrderUnique(subs: seq<Subscriber>, order: seq<Subscriber>)
    requires StableSort(subs, order)
    ensures order == RouteOrder(subs)
  {
    hide RouteOrder, SameLanes, Sorted;
    RouteOrderStable(subs);
    LanesSymmetric(subs, order);
    LanesTransitive(order, subs, RouteOrder(subs));
    StableSortUnique(order, RouteOrder(subs));
  }

  lemma LanesSymmetric(a: seq<Subscriber>, b: seq<Subscriber>)
    requires SameLanes(a, b)
    ensures SameLanes(b, a)
  {
  }

  lemma {:induction false} LaneCounts(s: seq<Subscriber>, x: Subscriber)
    ensures multiset(s)[x] == multiset(Lane(s, x.priority))[x]
  {
    if |s| > 0 {
      LaneCounts(s[1..], x);
      assert s == [s[0]] + s[1..];
      var h := if s[0].priority == x.priority then [s[0]] else [];
      assert multiset(Lane(s, x.priority)) == multiset(h) + multiset(Lane(s[1..], x.priority));
    }
  }

  /** Equal lanes mean the same subscribers with the same multiplicities. */
  lemma LanesPermute(a: seq<Subscriber>, b: seq<Subscriber>)
    requires SameLanes(a, b)
    ensures multiset(a) == multiset(b)
  {
    forall x: Subscriber ensures multiset(a)[x] == multiset(b)[x] {
      LaneCounts(a, x);
      LaneCounts(b, x);
      assert Lane(a, x.priority) == Lane(b, x.priority);
    }
  }

  /** The endpoints' record after a Route. */
  function RouteLog(answers: Answers, st: State, log: seq<Delivery>, msg: Message): (r: seq<Delivery>)
    ensures log <= r
  {
    log + SendEach(answers, log, RouteOrder(Select(st.subs, Targets(st, msg.typ))), msg)
  }

  // ---------------------------------------------------------------------- broker

  class Broker {
    var subscribers: map<string, Subscriber>
    var routes: map<MessageType, seq<string>>

    ghost function Value(): State
      reads this
    {
      State(subscribers, routes)
    }

    constructor ()
      ensures Value() == State(map[], map[]) && Inv(Value())
    {
      subscribers, routes := map[], map[];
    }

    method Subscribe(sub: Option<Subscriber>) returns (ok: bool)
      modifies this
      ensures Value() == SubscribeStep(old(Value()), sub) && (ok <==> Subscribable(sub))
    {
      if sub.None? || sub.value.serviceId == "" || sub.value.endpoint.None? {
        return false;
      }
      subscribers := subscribers[sub.value.serviceId := sub.value];
      return true;
    }

    /** Unsubscribe: reports the endpoint it closes. */
    method Unsubscribe(id: string) returns (closed: Option<nat>)
      modifies this
      ensures Value() == UnsubscribeStep(old(Value()), id)
      ensures closed == if id in old(subscribers) then old(subscribers)[id].endpoint else None
    {
      closed := None;
      if id in subscribers {
        closed := subscribers[id].endpoint;
        subscribers := subscribers - {id};
      }
      assert id !in old(subscribers) ==> subscribers - {id} == subscribers;
    }

    method AddRoute(typ: MessageType, targets: seq<string>)
      modifies this
      ensures Value() == AddRouteStep(old(Value()), typ, targets)
    {
      var existing := if typ in routes then routes[typ] else [];
      ghost var all := AddAll(existing, targets);
      var seen := set t | t in existing;
      var i := 0;
      assert targets[0..] == targets;
      while i < |targets|
        invariant 0 <= i <= |targets|
        invariant seen == set t | t in existing
        invariant AddAll(existing, targets[i..]) == all
      {
        assert targets[i..][1..] == targets[i + 1..];
        if targets[i] !in seen {
          existing := existing + [targets[i]];
          seen := seen + {targets[i]};
        }
        i := i + 1;
      }
      assert targets[i..] == [];
      routes := routes[typ := existing];
    }

    method RemoveRoute(typ: MessageType, target: string)
      modifies this
      ensures Value() == RemoveRouteStep(old(Value()), typ, target)
    {
      var targets := if typ in routes then routes[typ] else [];
      var i := 0;
      while i < |targets|
        invariant 0 <= i <= |targets|
        invariant forall k :: 0 <= k < i ==> targets[k] != target
      {
        if targets[i] == target {
          WithoutAt(targets, target, i);
          routes := routes[typ := targets[..i] + targets[i + 1..]];
          return;
        }
        i := i + 1;
      }
    }

    /** Route: the endpoints' record grows by one Send per selected subscriber, in stable priority order. */
    method Route(msg: Message, endpoints: Endpoints) returns (results: seq<RouteResult>)
      modifies endpoints
      ensures endpoints.log == RouteLog(endpoints.answers, Value(), old(endpoints.log), msg)
      ensures results == Results(endpoints.log[|old(endpoints.log)|..])
    {
      hide StableSort, Select, RouteOrder, SendEach;
      var targets := if msg.typ in routes then routes[msg.typ] else [];
      var subs := Collect(targets);
      results := [];
      if |subs| == 0 {
        NothingSelected(endpoints.answers, endpoints.log, msg);
        return;
      }
      var arr := new Subscriber[|subs|](i requires 0 <= i < |subs| => subs[i]);
      assert arr[..] == subs;
      SortByPriority(arr);
      OrderUnique(subs, arr[..]);
      results := SendAll(arr[..], msg, endpoints);
    }

    /** The delivery loop of Route. */
    static method SendAll(subs: seq<Subscriber>, msg: Message, endpoints: Endpoints) returns (results: seq<RouteResult>)
      modifies endpoints
      ensures endpoints.log == old(endpoints.log) + SendEach(endpoints.answers, old(endpoints.log), subs, msg)
      ensures results == Results(endpoints.log[|old(endpoints.log)|..])
    {
      hide SendEach, Results;
      results := [];
      ghost var answers, before := endpoints.answers, endpoints.log;
      NoneSent(answers, before, subs, msg);
      var i := 0;
      while i < |subs|
        invariant 0 <= i <= |subs|
        invariant endpoints.log == before + SendEach(answers, before, subs[..i], msg)
        invariant results == Results(SendEach(answers, before, subs[..i], msg))
      {
        SendNext(answers, before, subs, msg, i);
        var err := endpoints.Send(subs[i], msg);
        results := results + [RouteResult(subs[i].serviceId, err)];
        i := i + 1;
      }
      assert subs[..i] == subs;
      assert endpoints.log[|before|..] == SendEach(answers, before, subs, msg);
    }

    /** The collecting loop of Route. */
    method Collect(targets: seq<string>) returns (subs: seq<Subscriber>)
      ensures subs == Select(subscribers, targets)
    {
      subs := [];
      var i := 0;
      while i < |targets|
        invariant 0 <= i <= |targets|
        invariant subs + Select(subscribers, targets[i..]) == Select(subscribers, targets)
      {
        assert targets[i..][1..] == targets[i + 1..];
        if targets[i] in subscribers {
          assert subs + ([subscribers[targets[i]]] + Select(subscribers, targets[i + 1..]))
              == subs + [subscribers[targets[i]]] + Select(subscribers, targets[i + 1..]);
          subs := subs + [subscribers[targets[i]]];
        } else {
          assert [] + Select(subscribers, targets[i + 1..]) == Select(subscribers, targets[i + 1..]);
        }
        i := i + 1;
      }
      assert subs + [] == subs;
    }
  }

  lemma NoneSent(answers: Answers, log: seq<Delivery>, subs: seq<Subscriber>, msg: Message)
    ensures log + SendEach(answers, log, subs[..0], msg) == log && Results(SendEach(answers, log, subs[..0], msg)) == []
  {
  }

  /** One more turn of the delivery loop. */
  lemma SendNext(answers: Answers, log: seq<Delivery>, subs: seq<Subscriber>, msg: Message, i: nat)
    requires i < |subs|
    ensures var ds := SendEach(answers, log, subs[..i], msg);
            var d := Delivery(subs[i], msg, answers(log + ds, subs[i], msg));
            && SendEach(answers, log, subs[..i + 1], msg) == ds + [d]
            && Results(ds + [d]) == Results(ds) + [RouteResult(subs[i].serviceId, d.err)]
            && log + (ds + [d]) == log + ds + [d]
  {
    hide SendEach;
    SendSnoc(answers, log, subs[..i], subs[i], msg);
    assert subs[..i + 1] == subs[..i] + [subs[i]];
  }

  lemma {:induction false} SendSnoc(answers: Answers, log: seq<Delivery>, subs: seq<Subscriber>, x: Subscriber,
                                    msg: Message)
    ensures var ds := SendEach(answers, log, subs, msg);
            SendEach(answers, log, subs + [x], msg) == ds + [Delivery(x, msg, answers(log + ds, x, msg))]
    decreases |subs|
  {
    if |subs| == 0 {
      assert subs + [x] == [x] && [x][1..] == [] && log + [] == log;
    } else {
      var d := Delivery(subs[0], msg, answers(log, subs[0], msg));
      var rest := SendEach(answers, log + [d], subs[1..], msg);
      SendSnoc(answers, log + [d], subs[1..], x, msg);
      assert (subs + [x])[1..] == subs[1..] + [x] && log + [d] + rest == log + ([d] + rest);
    }
  }

  lemma NothingSelected(answers: Answers, log: seq<Delivery>, msg: Message)
    ensures log + SendEach(answers, log, RouteOrder([]), msg) == log && Results(log[|log|..]) == []
  {
  }

  lemma {:induction false} WithoutAt(list: seq<string>, x: string, i: nat)
    requires i < |list| && list[i] == x && forall k :: 0 <= k < i ==> list[k] != x
    ensures Without(list, x) == list[..i] + list[i + 1..]
  {
    if i > 0 {
      WithoutAt(list[1..], x, i - 1);
      assert list[..i] + list[i + 1..] == [list[0]] + (list[1..][..i - 1] + list[1..][i..]);
    }
  }

  // ------------------------------------------------------------------- invariant

  ghost predicate NoDup(list: seq<string>) { forall i, j :: 0 <= i < j < |list| ==> list[i] != list[j] }

  /** Subscribers sit under their own name, and no route lists a target twice. */
  ghost predicate Inv(st: State) {
    && (forall id :: id in st.subs ==> id != "" && st.subs[id].serviceId == id && st.subs[id].endpoint.Some?)
    && forall typ :: typ in st.routes ==> NoDup(st.routes[typ])
  }

  lemma {:induction false} AddAllNoDup(list: seq<string>, targets: seq<string>)
    requires NoDup(list)
    ensures NoDup(AddAll(list, targets))
    ensures forall x :: x in AddAll(list, targets) <==> x in list || x in targets
    ensures list <= AddAll(list, targets)
    decreases |targets|
  {
    if |targets| > 0 {
      var list' := if targets[0] in list then list else list + [targets[0]];
      AddAllNoDup(list', targets[1..]);
    }
  }

  lemma {:induction false} WithoutNoDup(list: seq<string>, x: string)
    requires NoDup(list)
    ensures NoDup(Without(list, x))
    ensures forall y :: y in Without(list, x) <==> y in list && y != x
  {
    if |list| > 0 && list[0] != x {
      WithoutNoDup(list[1..], x);
      var w := Without(list[1..], x);
      assert list[0] !in list[1..];
      forall y ensures y in Without(list, x) <==> y in list && y != x {
        assert y in list <==> y == list[0] || y in list[1..];
      }
    } else if |list| > 0 {
      forall y ensures y in list[1..] <==> y in list && y != x {
        assert y in list <==> y == list[0] || y in list[1..];
      }
    }
  }

  datatype Op =
    | SubscribeOp(sub: Option<Subscriber>)
    | UnsubscribeOp(id: string)
    | AddRouteOp(typ: MessageType, targets: seq<string>)
    | RemoveRouteOp(typ: MessageType, target: string)
    | RouteOp(msg: Message)

  function Step(st: State, op: Op): State {
    match op
    case SubscribeOp(sub) => SubscribeStep(st, sub)
    case UnsubscribeOp(id) => UnsubscribeStep(st, id)
    case AddRouteOp(typ, targets) => AddRouteStep(st, typ, targets)
    case RemoveRouteOp(typ, target) => RemoveRouteStep(st, typ, target)
    case RouteOp(_) => st
  }

  function Run(st: State, ops: seq<Op>): State
    decreases |ops|
  {
    if |ops| == 0 then st else Run(Step(st, ops[0]), ops[1..])
  }

  lemma StepKeeps(st: State, op: Op)
    requires Inv(st)
    ensures Inv(Step(st, op))
  {
    hide NoDup;
    match op
    case SubscribeOp(sub) =>
    case UnsubscribeOp(id) =>
    case AddRouteOp(typ, targets) =>
      EmptyNoDup();
      AddAllNoDup(Targets(st, typ), targets);
    case RemoveRouteOp(typ, target) =>
      if target in Targets(st, typ) {
        WithoutNoDup(Targets(st, typ), target);
      }
    case RouteOp(_) =>
  }

  lemma EmptyNoDup()
    ensures NoDup([])
  {
  }

  /** Every sequence of subscription and route changes keeps the invariant. */
  lemma {:induction false} RunKeeps(st: State, ops: seq<Op>)
    requires Inv(st)
    ensures Inv(Run(st, ops))
    decreases |ops|
  {
    hide Inv, Step;
    if |ops| > 0 {
      StepKeeps(st, ops[0]);
      RunKeeps(Step(st, ops[0]), ops[1..]);
    }
  }

  /** The history says `id` is subscribed: its last accepted Subscribe or Unsubscribe was a Subscribe. */
  function SubscribedAs(ops: seq<Op>, id: string): Option<Subscriber> {
    if |ops| == 0 then None
    else
      var last, before := ops[|ops| - 1], ops[..|ops| - 1];
      if last.SubscribeOp? && Subscribable(last.sub) && last.sub.value.serviceId == id then Some(last.sub.value)
      else if last == UnsubscribeOp(id) then None
      else SubscribedAs(before, id)
  }

  /** The history says `t` is a target of `typ`: it was added, and not removed since. */
  predicate Routed(ops: seq<Op>, typ: MessageType, t: string) {
    |ops| > 0 &&
    var last, before := ops[|ops| - 1], ops[..|ops| - 1];
    if last.AddRouteOp? && last.typ == typ && t in last.targets then true
    else if last == RemoveRouteOp(typ, t) then false
    else Routed(before, typ, t)
  }

  lemma {:induction false} RunSnoc(st: State, ops: seq<Op>)
    requires |ops| > 0
    ensures Run(st, ops) == Step(Run(st, ops[..|ops| - 1]), ops[|ops| - 1])
    decreases |ops|
  {
    hide Step;
    if |ops| == 1 {
      assert ops[1..] == [] && ops[..0] == [];
    } else {
      RunSnoc(Step(st, ops[0]), ops[1..]);
      assert ops[1..][..|ops| - 2] == ops[..|ops| - 1][1..];
    }
  }

  lemma HistoryStep(st: State, op: Op, id: string, typ: MessageType)
    requires Inv(st)
    ensures var st' := Step(st, op);
            && (if op.SubscribeOp? && Subscribable(op.sub) && op.sub.value.serviceId == id
                then id in st'.subs && st'.subs[id] == op.sub.value
                else if op == UnsubscribeOp(id) then id !in st'.subs
                else (id in st'.subs <==> id in st.subs) && (id in st.subs ==> st'.subs[id] == st.subs[id]))
            && (id in Targets(st', typ) <==>
                  if op.AddRouteOp? && op.typ == typ && id in op.targets then true
                  else if op == RemoveRouteOp(typ, id) then false
                  else id in Targets(st, typ))
  {
    hide NoDup;
    EmptyNoDup();
    match op
    case SubscribeOp(sub) =>
    case UnsubscribeOp(_) =>
    case AddRouteOp(t, targets) => AddAllNoDup(Targets(st, t), targets);
    case RemoveRouteOp(t, target) =>
      if target in Targets(st, t) {
        WithoutNoDup(Targets(st, t), target);
      }
    case RouteOp(_) =>
  }

  /** After any run, who is subscribed and what is routed is what the history says. */
  lemma {:induction false} StateIsHistory(ops: seq<Op>, id: string, typ: MessageType)
    ensures var st := Run(State(map[], map[]), ops);
            && (id in st.subs <==> SubscribedAs(ops, id).Some?)
            && (id in st.subs ==> SubscribedAs(ops, id) == Some(st.subs[id]))
            && (id in Targets(st, typ) <==> Routed(ops, typ, id))
  {
    hide Step;
    if |ops| > 0 {
      var before := ops[..|ops| - 1];
      StateIsHistory(before, id, typ);
      RunSnoc(State(map[], map[]), ops);
      RunKeeps(State(map[], map[]), before);
      HistoryStep(Run(State(map[], map[]), before), ops[|ops| - 1], id, typ);
    }
  }

  // ------------------------------------------------------------- exactly once

  lemma {:induction false} SelectMembers(subs: map<string, Subscriber>, targets: seq<string>, x: Subscriber)
    requires NoDup(targets) && forall id :: id in subs ==> subs[id].serviceId == id
    ensures multiset(Select(subs, targets))[x]
         == if x.serviceId in targets && x.serviceId in subs && subs[x.serviceId] == x then 1 else 0
  {
    if |targets| > 0 {
      var t, rest := targets[0], targets[1..];
      SelectMembers(subs, rest, x);
      var h := if t in subs then [subs[t]] else [];
      assert multiset(Select(subs, targets)) == multiset(h) + multiset(Select(subs, rest));
      assert x.serviceId in targets <==> x.serviceId == t || x.serviceId in rest;
      assert t !in rest;
    }
  }

  /** After any run, the selected subscribers are the targets the history has routed and subscribed, once each. */
  lemma SelectedOnce(ops: seq<Op>, typ: MessageType, sent: seq<Subscriber>, id: string)
    requires var st := Run(State(map[], map[]), ops); StableSort(Select(st.subs, Targets(st, typ)), sent)
    ensures Routed(ops, typ, id) && SubscribedAs(ops, id).Some? ==> SubscribedAs(ops, id).value in sent
    ensures forall k :: 0 <= k < |sent| ==>
              Routed(ops, typ, sent[k].serviceId) && SubscribedAs(ops, sent[k].serviceId) == Some(sent[k])
    ensures forall k, l :: 0 <= k < l < |sent| ==> sent[k].serviceId != sent[l].serviceId
  {
    hide Run, SameLanes, Lane, Routed, SubscribedAs;
    var st := Run(State(map[], map[]), ops);
    RunKeeps(State(map[], map[]), ops);
    EmptyNoDup();
    var picked := Select(st.subs, Targets(st, typ));
    LanesPermute(picked, sent);
    forall k | 0 <= k < |sent|
      ensures Routed(ops, typ, sent[k].serviceId) && SubscribedAs(ops, sent[k].serviceId) == Some(sent[k])
      ensures multiset(sent)[sent[k]] == 1
    {
      SelectMembers(st.subs, Targets(st, typ), sent[k]);
      assert sent[k] in multiset(sent);
      StateIsHistory(ops, sent[k].serviceId, typ);
    }
    forall k, l | 0 <= k < l < |sent| ensures sent[k].serviceId != sent[l].serviceId {
      TwiceCounts(sent, k, l);
    }
    StateIsHistory(ops, id, typ);
    if Routed(ops, typ, id) && SubscribedAs(ops, id).Some? {
      SelectMembers(st.subs, Targets(st, typ), st.subs[id]);
      assert st.subs[id] in multiset(sent);
    }
  }

  lemma TwiceCounts(s: seq<Subscriber>, k: nat, l: nat)
    requires k < l < |s|
    ensures s[k] == s[l] ==> multiset(s)[s[k]] >= 2
  {
    assert s == s[..l] + [s[l]] + s[l + 1..];
    assert s[..l][k] == s[k];
    assert s[k] in multiset(s[..l]);
  }

  /** The endpoints' record after a run. */
  function LogAfter(answers: Answers, ops: seq<Op>): seq<Delivery> {
    if |ops| == 0 then []
    else
      var last, before := ops[|ops| - 1], ops[..|ops| - 1];
      if last.RouteOp? then RouteLog(answers, Run(State(map[], map[]), before), LogAfter(answers, before), last.msg)
      else LogAfter(answers, before)
  }

  /** How often the service was sent something. */
  function Sends(ds: seq<Delivery>, id: string): nat {
    if |ds| == 0 then 0 else (if ds[0].to.serviceId == id then 1 else 0) + Sends(ds[1..], id)
  }

  lemma {:induction false} SendsConcat(a: seq<Delivery>, b: seq<Delivery>, id: string)
    ensures Sends(a + b, id) == Sends(a, id) + Sends(b, id)
  {
    if |a| == 0 {
      assert a + b == b;
    } else {
      SendsConcat(a[1..], b, id);
      assert (a + b)[1..] == a[1..] + b;
    }
  }

  lemma {:induction false} SendsDistinct(ds: seq<Delivery>, id: string)
    requires forall k, l :: 0 <= k < l < |ds| ==> ds[k].to.serviceId != ds[l].to.serviceId
    ensures Sends(ds, id) == if exists k :: 0 <= k < |ds| && ds[k].to.serviceId == id then 1 else 0
  {
    if |ds| > 0 {
      SendsDistinct(ds[1..], id);
      if ds[0].to.serviceId != id && exists k :: 0 <= k < |ds| && ds[k].to.serviceId == id {
        var k :| 0 <= k < |ds| && ds[k].to.serviceId == id;
        assert ds[1..][k - 1].to.serviceId == id;
      }
    }
  }

  lemma {:induction false} SendEachTo(answers: Answers, log: seq<Delivery>, subs: seq<Subscriber>, msg: Message, k: nat)
    requires k < |subs|
    ensures SendEach(answers, log, subs, msg)[k].to == subs[k] && SendEach(answers, log, subs, msg)[k].msg == msg
    ensures var ds := SendEach(answers, log, subs, msg);
            ds[k].err == answers(log + ds[..k], subs[k], msg)
    decreases |subs|
  {
    var d := Delivery(subs[0], msg, answers(log, subs[0], msg));
    var ds, rest := SendEach(answers, log, subs, msg), SendEach(answers, log + [d], subs[1..], msg);
    if k == 0 {
      assert log + ds[..0] == log;
    } else {
      SendEachTo(answers, log + [d], subs[1..], msg, k - 1);
      assert log + ds[..k] == log + [d] + rest[..k - 1];
    }
  }

  /**
   After any run, a Route makes exactly one Send call on the endpoint of each
   target the history has routed and subscribed, with the message, and no other
   call; calls go out in priority order, equals in route order.
   */
  lemma ExactlyOnce(answers: Answers, ops: seq<Op>, msg: Message, id: string)
    ensures var log, log' := LogAfter(answers, ops), LogAfter(answers, ops + [RouteOp(msg)]);
            && log <= log'
            && var calls, st := log'[|log|..], Run(State(map[], map[]), ops);
               && Sends(calls, id) == (if Routed(ops, msg.typ, id) && SubscribedAs(ops, id).Some? then 1 else 0)
               && (forall k :: 0 <= k < |calls| ==>
                     && Routed(ops, msg.typ, calls[k].to.serviceId)
                     && SubscribedAs(ops, calls[k].to.serviceId) == Some(calls[k].to)
                     && calls[k].msg == msg && calls[k].err == answers(log + calls[..k], calls[k].to, msg))
               && StableSort(Select(st.subs, Targets(st, msg.typ)), Receivers(calls))
  {
    hide Run, StableSort, Select, RouteOrder, Routed, SubscribedAs, SendEach, Sends, LogAfter, Receivers;
    var st, log := Run(State(map[], map[]), ops), LogAfter(answers, ops);
    var picked := Select(st.subs, Targets(st, msg.typ));
    var order := RouteOrder(picked);
    LogNext(answers, ops, msg);
    var calls := SendEach(answers, log, order, msg);
    CallsMade(answers, log, order, msg);
    RouteOrderStable(picked);
    SelectedOnce(ops, msg.typ, order, id);
    SendsDistinct(calls, id);
    if Routed(ops, msg.typ, id) && SubscribedAs(ops, id).Some? {
      var k :| 0 <= k < |order| && order[k] == SubscribedAs(ops, id).value;
      NamedSelf(ops, id);
      assert calls[k].to.serviceId == id;
    }
  }

  lemma LogNext(answers: Answers, ops: seq<Op>, msg: Message)
    ensures var log, log' := LogAfter(answers, ops), LogAfter(answers, ops + [RouteOp(msg)]);
            var st := Run(State(map[], map[]), ops);
            && log <= log'
            && log'[|log|..] == SendEach(answers, log, RouteOrder(Select(st.subs, Targets(st, msg.typ))), msg)
  {
    hide Run, Select, RouteOrder, SendEach, Targets;
    var all := ops + [RouteOp(msg)];
    assert all[..|all| - 1] == ops;
  }

  /** The calls of the delivery loop, one by one. */
  lemma CallsMade(answers: Answers, log: seq<Delivery>, subs: seq<Subscriber>, msg: Message)
    ensures var calls := SendEach(answers, log, subs, msg);
            && Receivers(calls) == subs
            && forall k :: 0 <= k < |subs| ==>
                 && calls[k].to == subs[k] && calls[k].msg == msg
                 && calls[k].err == answers(log + calls[..k], subs[k], msg)
  {
    hide SendEach;
    var calls := SendEach(answers, log, subs, msg);
    forall k | 0 <= k < |subs|
      ensures calls[k].to == subs[k] && calls[k].msg == msg && calls[k].err == answers(log + calls[..k], subs[k], msg)
    {
      SendEachTo(answers, log, subs, msg, k);
    }
  }

  function Receivers(ds: seq<Delivery>): seq<Subscriber> { seq(|ds|, i requires 0 <= i < |ds| => ds[i].to) }

  lemma {:induction false} NamedSelf(ops: seq<Op>, id: string)
    ensures SubscribedAs(ops, id).Some? ==> SubscribedAs(ops, id).value.serviceId == id
  {
    if |ops| > 0 {
      NamedSelf(ops[..|ops| - 1], id);
    }
  }

  /** How many Route calls of a run the history owes the service. */
  function Owed(ops: seq<Op>, id: string): nat {
    if |ops| == 0 then 0
    else
      var last, before := ops[|ops| - 1], ops[..|ops| - 1];
      Owed(before, id) +
      if last.RouteOp? && Routed(before, last.msg.typ, id) && SubscribedAs(before, id).Some? then 1 else 0
  }

  /**
   Over a whole run a service is sent exactly the messages routed to it while
   it was subscribed: none lost, none twice.
   */
  lemma {:induction false} SendsAreOwed(answers: Answers, ops: seq<Op>, id: string)
    ensures Sends(LogAfter(answers, ops), id) == Owed(ops, id)
  {
    hide RouteLog, Run, Routed, SubscribedAs, Sends, StableSort, Select;
    if |ops| == 0 {
      NoSends(id);
    } else {
      var last, before := ops[|ops| - 1], ops[..|ops| - 1];
      SendsAreOwed(answers, before, id);
      if last.RouteOp? {
        ExactlyOnce(answers, before, last.msg, id);
        var log, log' := LogAfter(answers, before), LogAfter(answers, ops);
        assert before + [last] == ops;
        SendsConcat(log, log'[|log|..], id);
        assert log + log'[|log|..] == log';
      }
    }
  }

  lemma NoSends(id: string)
    ensures Sends([], id) == 0
  {
  }
}
