/**
 The message router (core/router.go): priority-ordered batch dispatch through
 the heap of container/heap over this queue's Less, Swap and Pop.
 */
module Router {
  import opened Bytes
  import opened MessageTypes
  import opened Endpoint

  /** priorityItem: a message and its place in the batch. */
  datatype Item = Item(msg: Message, index: nat)

  datatype DispatchResult = DispatchResult(response: Option<Message>, err: Option<string>)

  /** A handler may change the state `S` it closes over. */
  type Handler<!S> = (S, Message) -> (S, DispatchResult)

  // ----------------------------------------------------------------- the heap

  function Prio(it: Item): byte { it.msg.priority }

  function Parent(k: nat): nat
    requires k > 0
  {
    (k - 1) / 2
  }

  /** Heap order below every parent from `lo` on, except possibly below `hole`. */
  ghost predicate HeapBut(s: seq<Item>, lo: nat, n: nat, hole: int)
    requires n <= |s|
  {
    forall k :: 0 < k < n && lo <= Parent(k) != hole ==> Prio(s[Parent(k)]) <= Prio(s[k])
  }

  ghost predicate Heap(s: seq<Item>, lo: nat, n: nat)
    requires n <= |s|
  {
    HeapBut(s, lo, n, -1)
  }

  /** The children of the hole are still below its parent. */
  ghost predicate Bridged(s: seq<Item>, lo: nat, n: nat, hole: nat)
    requires n <= |s|
  {
    hole > 0 && lo <= Parent(hole) ==>
      forall k :: 0 < k < n && Parent(k) == hole ==> Prio(s[Parent(hole)]) <= Prio(s[k])
  }

  function Swapped(s: seq<Item>, i: nat, j: nat): (r: seq<Item>)
    requires i < |s| && j < |s|
    ensures |r| == |s| && multiset(r) == multiset(s)
  {
    s[i := s[j]][j := s[i]]
  }

  class PriorityQueue {
    var items: seq<Item>

    constructor (items: seq<Item>)
      ensures this.items == items
    {
      this.items := items;
    }

    /** Less: lower value is higher priority. */
    predicate Less(i: nat, j: nat)
      requires i < |items| && j < |items|
      reads this
    {
      items[i].msg.priority < items[j].msg.priority
    }

    /** Swap: the items move, their index fields do not change. */
    method Swap(i: nat, j: nat)
      requires i < |items| && j < |items|
      modifies this
      ensures items == Swapped(old(items), i, j)
    {
      items := items[i := items[j]][j := items[i]];
    }

    /** Pop: shrink by the last element. */
    method Pop() returns (item: Item)
      requires |items| > 0
      modifies this
      ensures item == old(items)[|old(items)| - 1] && items == old(items)[..|old(items)| - 1]
    {
      var n := |items|;
      item := items[n - 1];
      items := items[..n - 1];
    }

    /** down of container/heap: sift the element at `i0` into the first `n`. */
    method Down(i0: nat, n: nat)
      requires i0 < n <= |items| && HeapBut(items, i0, n, i0)
      modifies this
      ensures |items| == |old(items)| && Heap(items, i0, n)
      ensures multiset(items) == multiset(old(items)) && items[n..] == old(items)[n..]
    {
      hide HeapBut, Bridged, LeastChild, Swapped;
      BridgedAtTop(items, i0, n);
      var i := i0;
      while true
        invariant i0 <= i < n <= |items| == |old(items)|
        invariant HeapBut(items, i0, n, i) && Bridged(items, i0, n, i)
        invariant multiset(items) == multiset(old(items)) && items[n..] == old(items)[n..]
        decreases n - i
      {
        var j1 := 2 * i + 1;
        if j1 >= n {
          LeafHole(items, i0, n, i);
          return;
        }
        var j := j1;
        var j2 := j1 + 1;
        if j2 < n && Less(j2, j1) {
          j := j2;
        }
        ChosenChild(items, n, i, j);
        if !Less(j, i) {
          SmallHole(items, i0, n, i, j);
          return;
        }
        SiftStep(items, i0, n, i, j);
        Swap(i, j);
        i := j;
      }
    }

    /** heap.Init. */
    method Init()
      modifies this
      ensures Heap(items, 0, |items|)
      ensures |items| == |old(items)| && multiset(items) == multiset(old(items))
    {
      var n := |items|;
      var i := n / 2;
      LeavesAreHeap(items, i);
      while i > 0
        invariant 0 <= i <= n / 2
        invariant |items| == n && multiset(items) == multiset(old(items)) && Heap(items, i, n)
      {
        i := i - 1;
        Down(i, n);
      }
    }

    /** heap.Pop: the least element leaves, the rest is a heap again. */
    method HeapPop() returns (item: Item)
      requires |items| > 0 && Heap(items, 0, |items|)
      modifies this
      ensures Heap(items, 0, |items|)
      ensures multiset(old(items)) == multiset(items) + multiset{item}
      ensures |items| == |old(items)| - 1
      ensures forall k :: 0 <= k < |items| ==> Prio(item) <= Prio(items[k])
    {
      hide HeapBut, Swapped, Heap;
      ghost var before := items;
      var n := |items| - 1;
      Swap(0, n);
      assert items[n] == before[0] by { SwapEnds(before); }
      if n > 0 {
        SwapLast(before);
        Down(0, n);
        assert items[n..][0] == before[0];
      } else {
        NoHeap(items);
      }
      ghost var s := items;
      HeapPrefix(s, n);
      item := Pop();
      assert s == items + [item];
      RestBelow(before, items, item);
    }
  }

  // ----------------------------------------------------------- heap arithmetic

  /** `j` is the lesser of the children of `i`. */
  ghost predicate LeastChild(s: seq<Item>, n: nat, i: nat, j: nat)
    requires n <= |s| && j < n
  {
    forall k :: 0 < k < n && Parent(k) == i ==> Prio(s[j]) <= Prio(s[k])
  }

  lemma ChosenChild(s: seq<Item>, n: nat, i: nat, j: nat)
    requires n <= |s| && 2 * i + 1 <= j < n && j <= 2 * i + 2
    requires Prio(s[j]) <= Prio(s[2 * i + 1])
    requires j == 2 * i + 1 && 2 * i + 2 < n ==> Prio(s[j]) <= Prio(s[2 * i + 2])
    ensures LeastChild(s, n, i, j) && Parent(j) == i
  {
  }

  lemma BridgedAtTop(s: seq<Item>, lo: nat, n: nat)
    requires n <= |s|
    ensures Bridged(s, lo, n, lo)
  {
  }

  lemma LeafHole(s: seq<Item>, lo: nat, n: nat, i: nat)
    requires n <= |s| && HeapBut(s, lo, n, i) && 2 * i + 1 >= n
    ensures Heap(s, lo, n)
  {
  }

  lemma SmallHole(s: seq<Item>, lo: nat, n: nat, i: nat, j: nat)
    requires n <= |s| && HeapBut(s, lo, n, i) && j < n && 2 * i + 1 <= j <= 2 * i + 2
    requires Prio(s[i]) <= Prio(s[j])
    requires LeastChild(s, n, i, j)
    ensures Heap(s, lo, n)
  {
  }

  /** One sift: the hole moves to the lesser child, which takes its place. */
  lemma SiftStep(s: seq<Item>, lo: nat, n: nat, i: nat, j: nat)
    requires n <= |s| && lo <= i < j < n && Parent(j) == i
    requires HeapBut(s, lo, n, i) && Bridged(s, lo, n, i)
    requires Prio(s[j]) < Prio(s[i])
    requires LeastChild(s, n, i, j)
    ensures var r := Swapped(s, i, j);
            HeapBut(r, lo, n, j) && Bridged(r, lo, n, j) && r[n..] == s[n..]
  {
    var r := Swapped(s, i, j);
    forall k | 0 < k < n && lo <= Parent(k) != j ensures Prio(r[Parent(k)]) <= Prio(r[k]) {
      if Parent(k) != i && k == i {
        assert Prio(s[Parent(i)]) <= Prio(s[j]);
      }
    }
  }

  lemma LeavesAreHeap(s: seq<Item>, lo: nat)
    requires lo == |s| / 2
    ensures Heap(s, lo, |s|)
  {
  }

  lemma SwapLast(s: seq<Item>)
    requires |s| > 1 && Heap(s, 0, |s|)
    ensures HeapBut(Swapped(s, 0, |s| - 1), 0, |s| - 1, 0)
  {
  }

  lemma {:induction false} RootBelow(s: seq<Item>, k: nat)
    requires Heap(s, 0, |s|) && k < |s|
    ensures Prio(s[0]) <= Prio(s[k])
  {
    if k > 0 {
      RootBelow(s, Parent(k));
    }
  }

  lemma SwapEnds(s: seq<Item>)
    requires |s| > 0
    ensures Swapped(s, 0, |s| - 1)[|s| - 1] == s[0]
  {
  }

  lemma NoHeap(s: seq<Item>)
    ensures Heap(s, 0, 0)
  {
  }

  /** Heap order of the first `n` elements does not look at the rest. */
  lemma HeapPrefix(s: seq<Item>, n: nat)
    requires n <= |s| && Heap(s, 0, n)
    ensures Heap(s[..n], 0, n)
  {
  }

  lemma RestBelow(before: seq<Item>, rest: seq<Item>, item: Item)
    requires |before| > 0 && Heap(before, 0, |before|) && item == before[0]
    requires multiset(rest + [item]) == multiset(before)
    ensures multiset(before) == multiset(rest) + multiset{item}
    ensures forall k :: 0 <= k < |rest| ==> Prio(item) <= Prio(rest[k])
  {
    hide Heap;
    forall k | 0 <= k < |rest| ensures Prio(item) <= Prio(rest[k]) {
      assert rest[k] in multiset(before);
      RootIsLeast(before, rest[k]);
    }
  }

  lemma RootIsLeast(s: seq<Item>, x: Item)
    requires |s| > 0 && Heap(s, 0, |s|) && x in multiset(s)
    ensures Prio(s[0]) <= Prio(x)
  {
    assert x in s;
    var k :| 0 <= k < |s| && s[k] == x;
    RootBelow(s, k);
  }

  // ------------------------------------------------------------------ dispatch

  /** Dispatch: an unregistered type gets no response and no error. */
  function Dispatch<S>(handlers: map<MessageType, Handler<S>>, world: S, msg: Message): (S, DispatchResult) {
    if msg.typ in handlers then handlers[msg.typ](world, msg) else (world, DispatchResult(None, None))
  }

  /** Dispatching messages one after another: the final state and each outcome. */
  function DispatchAll<S>(handlers: map<MessageType, Handler<S>>, world: S, msgs: seq<Message>)
    : (r: (S, seq<DispatchResult>))
    ensures |r.1| == |msgs|
  {
    if |msgs| == 0 then (world, [])
    else
      var (w, rs) := DispatchAll(handlers, world, msgs[..|msgs| - 1]);
      var (w', r) := Dispatch(handlers, w, msgs[|msgs| - 1]);
      (w', rs + [r])
  }

  /** A message goes to the handler of its type; one without a handler changes and yields nothing. */
  ghost predicate Handled<S>(handlers: map<MessageType, Handler<S>>, w: S, msg: Message, w': S, out: DispatchResult) {
    if msg.typ in handlers then (w', out) == handlers[msg.typ](w, msg) else w' == w && out == DispatchResult(None, None)
  }

  /** A run of the handlers over `msgs`: `worlds` are the states before, between and after them. */
  ghost predicate AllHandled<S>(handlers: map<MessageType, Handler<S>>, worlds: seq<S>, msgs: seq<Message>,
                                outs: seq<DispatchResult>)
  {
    && |worlds| == |msgs| + 1 && |outs| == |msgs|
    && forall k :: 0 <= k < |msgs| ==> Handled(handlers, worlds[k], msgs[k], worlds[k + 1], outs[k])
  }

  lemma {:induction false} DispatchAllHandles<S>(handlers: map<MessageType, Handler<S>>, world: S, msgs: seq<Message>)
    returns (worlds: seq<S>)
    ensures AllHandled(handlers, worlds, msgs, DispatchAll(handlers, world, msgs).1)
    ensures worlds[0] == world && worlds[|msgs|] == DispatchAll(handlers, world, msgs).0
  {
    if |msgs| == 0 {
      return [world];
    }
    var init := msgs[..|msgs| - 1];
    worlds := DispatchAllHandles(handlers, world, init);
    assert forall k :: 0 <= k < |init| ==> init[k] == msgs[k];
    worlds := worlds + [DispatchAll(handlers, world, msgs).0];
  }

  function Msgs(log: seq<Item>): seq<Message> { seq(|log|, i requires 0 <= i < |log| => log[i].msg) }

  function Initial(messages: seq<Message>): seq<Item> {
    seq(|messages|, i requires 0 <= i < |messages| => Item(messages[i], i))
  }

  /** `order` visits every position of the batch once, in non-decreasing priority. */
  ghost predicate PriorityOrder(messages: seq<Message>, order: seq<nat>) {
    && |order| == |messages|
    && (forall k :: 0 <= k < |order| ==> order[k] < |messages|)
    && (forall k, l :: 0 <= k < l < |order| ==> order[k] != order[l])
    && (forall i :: 0 <= i < |messages| ==> i in order)
    && forall k, l :: 0 <= k < l < |order| ==> messages[order[k]].priority <= messages[order[l]].priority
  }

  function Pick(messages: seq<Message>, order: seq<nat>): seq<Message>
    requires forall k :: 0 <= k < |order| ==> order[k] < |messages|
  {
    seq(|order|, k requires 0 <= k < |order| => messages[order[k]])
  }

  /** Items taken out so far and still queued: the batch, each item once. */
  ghost predicate Split(messages: seq<Message>, log: seq<Item>, queue: seq<Item>) {
    multiset(log) + multiset(queue) == multiset(Initial(messages))
  }

  lemma {:induction false} InitialOnce(messages: seq<Message>, x: Item)
    ensures multiset(Initial(messages))[x] <= 1
    ensures x in multiset(Initial(messages)) ==> x.index < |messages| && x.msg == messages[x.index]
  {
    var s := Initial(messages);
    if |s| > 0 {
      var init, last := messages[..|s| - 1], s[|s| - 1];
      InitialOnce(init, x);
      assert s == Initial(init) + [last];
    }
  }

  /** An item about to be logged is not logged yet. */
  lemma NotLogged(messages: seq<Message>, log: seq<Item>, queue: seq<Item>, item: Item, k: nat)
    requires Split(messages, log, queue) && item in multiset(queue) && k < |log|
    ensures item.index < |messages| && item.msg == messages[item.index]
    ensures log[k].index != item.index
  {
    InitialOnce(messages, item);
    assert item in multiset(Initial(messages));
    InitialOnce(messages, log[k]);
    assert log[k] in multiset(log);
    assert log[k] == item ==> multiset(log)[item] >= 1 && multiset(queue)[item] >= 1;
  }

  /**
   DispatchBatch: every message goes exactly once to the handler of its type, if
   there is one, in some order of non-decreasing priority, each after what the
   earlier ones did to the state; results[i] is the outcome of messages[i].
   */
  method DispatchBatch<S>(handlers: map<MessageType, Handler<S>>, world: S, messages: seq<Message>)
    returns (results: seq<DispatchResult>, world': S, ghost order: seq<nat>, ghost worlds: seq<S>)
    ensures PriorityOrder(messages, order) && |results| == |messages| && |worlds| == |messages| + 1
    ensures worlds[0] == world && worlds[|messages|] == world'
    ensures forall k :: 0 <= k < |order| ==>
              Handled(handlers, worlds[k], messages[order[k]], worlds[k + 1], results[order[k]])
  {
    hide *;
    var pq := new PriorityQueue(Initial(messages));
    pq.Init();
    results := seq(|messages|, _ => DispatchResult(None, None));
    world' := world;
    ghost var log: seq<Item> := [];
    NothingLogged(handlers, world, messages, pq.items, results);
    while |pq.items| > 0
      invariant Heap(pq.items, 0, |pq.items|)
      invariant Split(messages, log, pq.items) && Below(log, pq.items)
      invariant |results| == |messages|
      invariant Logged(messages, log, results, DispatchAll(handlers, world, Msgs(log)).1)
      invariant world' == DispatchAll(handlers, world, Msgs(log)).0
      decreases |pq.items|
    {
      ghost var before := pq.items;
      var item := pq.HeapPop();
      Popped(messages, log, before, pq.items, item);
      var (w, r) := Dispatch(handlers, world', item.msg);
      LogOne(messages, log, results, DispatchAll(handlers, world, Msgs(log)).1, item, r);
      DispatchSnoc(handlers, world, log, item);
      results := results[item.index := r];
      world' := w;
      log := log + [item];
    }
    assert pq.items == [];
    order := OrderOf(log);
    FinishedOrder(messages, log, results, DispatchAll(handlers, world, Msgs(log)).1);
    worlds := DispatchAllHandles(handlers, world, Msgs(log));
    Finished(handlers, messages, order, worlds, DispatchAll(handlers, world, Msgs(log)).1, results);
  }

  /** A run over the messages in the order they were picked, read off the batch. */
  lemma Finished<S>(handlers: map<MessageType, Handler<S>>, messages: seq<Message>, order: seq<nat>, worlds: seq<S>,
                    outs: seq<DispatchResult>, results: seq<DispatchResult>)
    requires PriorityOrder(messages, order) && AllHandled(handlers, worlds, Pick(messages, order), outs)
    requires |results| == |messages| && forall k :: 0 <= k < |order| ==> results[order[k]] == outs[k]
    ensures |worlds| == |messages| + 1
    ensures forall k :: 0 <= k < |order| ==>
              Handled(handlers, worlds[k], messages[order[k]], worlds[k + 1], results[order[k]])
  {
    hide Handled;
    forall k | 0 <= k < |order| ensures Pick(messages, order)[k] == messages[order[k]] {
    }
  }

  ghost predicate Below(log: seq<Item>, queue: seq<Item>) {
    forall k, l :: 0 <= k < |log| && 0 <= l < |queue| ==> Prio(log[k]) <= Prio(queue[l])
  }

  lemma NothingLogged<S>(handlers: map<MessageType, Handler<S>>, world: S, messages: seq<Message>, queue: seq<Item>,
                         results: seq<DispatchResult>)
    requires multiset(queue) == multiset(Initial(messages)) && |results| == |messages|
    ensures Split(messages, [], queue) && Below([], queue)
    ensures DispatchAll(handlers, world, Msgs([])) == (world, []) && Logged(messages, [], results, [])
  {
    assert Msgs([]) == [];
  }

  /** The outcomes recorded so far: each logged item once, in priority order, its result in its place. */
  ghost predicate Logged(messages: seq<Message>, log: seq<Item>, results: seq<DispatchResult>,
                         outs: seq<DispatchResult>)
    requires |results| == |messages|
  {
    && |outs| == |log|
    && (forall k :: 0 <= k < |log| ==> log[k].index < |messages| && log[k].msg == messages[log[k].index]
                                       && results[log[k].index] == outs[k])
    && (forall k, l :: 0 <= k < l < |log| ==> log[k].index != log[l].index && Prio(log[k]) <= Prio(log[l]))
  }

  lemma Popped(messages: seq<Message>, log: seq<Item>, before: seq<Item>, after: seq<Item>, item: Item)
    requires Split(messages, log, before) && multiset(before) == multiset(after) + multiset{item}
    requires Below(log, before) && forall k :: 0 <= k < |after| ==> Prio(item) <= Prio(after[k])
    ensures Split(messages, log + [item], after) && Below(log + [item], after)
    ensures item.index < |messages| && item.msg == messages[item.index]
    ensures forall k :: 0 <= k < |log| ==> log[k].index != item.index && Prio(log[k]) <= Prio(item)
  {
    assert item in multiset(before);
    assert item in before;
    InitialOnce(messages, item);
    assert item in multiset(Initial(messages));
    forall k | 0 <= k < |log| ensures log[k].index != item.index {
      NotLogged(messages, log, before, item, k);
    }
    forall l | 0 <= l < |after| ensures after[l] in before {
      assert after[l] in multiset(before);
    }
  }

  lemma LogOne(messages: seq<Message>, log: seq<Item>, results: seq<DispatchResult>, outs: seq<DispatchResult>,
               item: Item, r: DispatchResult)
    requires |results| == |messages| && Logged(messages, log, results, outs)
    requires item.index < |messages| && item.msg == messages[item.index]
    requires forall k :: 0 <= k < |log| ==> log[k].index != item.index && Prio(log[k]) <= Prio(item)
    ensures Logged(messages, log + [item], results[item.index := r], outs + [r])
  {
  }

  lemma AllLogged(messages: seq<Message>, log: seq<Item>)
    requires Split(messages, log, [])
    ensures |log| == |messages|
    ensures forall i :: 0 <= i < |messages| ==> Item(messages[i], i) in log
  {
    var s := Initial(messages);
    assert multiset(log) == multiset(s);
    assert |multiset(log)| == |log| && |multiset(s)| == |s|;
    forall i | 0 <= i < |messages| ensures Item(messages[i], i) in log {
      assert s[i] in multiset(s);
      assert s[i] in multiset(log);
    }
  }

  lemma DispatchSnoc<S>(handlers: map<MessageType, Handler<S>>, world: S, log: seq<Item>, item: Item)
    ensures var (w, rs) := DispatchAll(handlers, world, Msgs(log));
            var (w', r) := Dispatch(handlers, w, item.msg);
            DispatchAll(handlers, world, Msgs(log + [item])) == (w', rs + [r])
  {
    hide Dispatch;
    var ms := Msgs(log + [item]);
    assert ms[..|ms| - 1] == Msgs(log) && ms[|ms| - 1] == item.msg;
  }

  /** The order in which a finished log visited the batch. */
  ghost function OrderOf(log: seq<Item>): (order: seq<nat>)
    ensures |order| == |log|
  {
    seq(|log|, k requires 0 <= k < |log| => log[k].index)
  }

  lemma FinishedOrder(messages: seq<Message>, log: seq<Item>, results: seq<DispatchResult>, outs: seq<DispatchResult>)
    requires |results| == |messages| && Split(messages, log, []) && Logged(messages, log, results, outs)
    ensures PriorityOrder(messages, OrderOf(log)) && Pick(messages, OrderOf(log)) == Msgs(log)
    ensures forall k :: 0 <= k < |log| ==> results[OrderOf(log)[k]] == outs[k]
  {
    AllLogged(messages, log);
    var order := OrderOf(log);
    forall i | 0 <= i < |messages| ensures i in order {
      var k :| 0 <= k < |log| && log[k] == Item(messages[i], i);
      assert order[k] == i;
    }
  }
}
